/**
 * Promises and futures in one event loop. A cell (async_data) holds what its promise was
 * given and at most one callback; attaching a callback makes a new cell for its result.
 */
module Futures {
  import opened Wrappers

  /** What a callback may throw; Broken is the exception of a destroyed promise. */
  datatype Exn = Broken | Thrown(code: int)

  /** A value or an exception: what a future's get returns or rethrows. */
  type Res = Result<int, Exn>

  /** A callback takes a resolved future, and returns a value or throws. */
  type Fn = Res -> Res

  /** What a cell was resolved with; a nested cell's value is itself a future. */
  datatype Content<K> = Plain(res: Res) | Nested(inner: K)

  /**
   * A stored callback and the cell its promise belongs to. With gives, the function
   * returns that future instead of its value.
   */
  datatype Callback<K> = Callback(f: Fn, gives: Option<K>, target: K)

  /** Where a cell's result comes from: a promise held by the program, or a callback on another cell. */
  datatype Def<K> = Root | Derived(src: K, f: Fn, gives: Option<K>)

  /** home is the cell this cell's future handle has been moved into, or promised to. */
  datatype Cell<K> = Cell(content: Option<Content<K>>, callback: Option<Callback<K>>,
                          def: Def<K>, home: Option<K>, nested: bool)

  /** log is the history of callbacks run, each named by its target. */
  datatype Heap<K> = Heap(cells: map<K, Cell<K>>, log: seq<K>)

  // ----- the program's own steps -----

  ghost function Outcome<K>(f: Fn, gives: Option<K>, r: Res): Content<K>
  {
    var v := f(r);
    if v.Ok? && gives.Some? then Nested(gives.value) else Plain(v)
  }

  /** What a callback on cell s would be called with: a nested cell passes on its inner future's result. */
  ghost function Input<K>(h: Heap<K>, s: K): Option<Res>
    requires s in h.cells
  {
    match h.cells[s].content
    case None => None
    case Some(Plain(r)) => Some(r)
    case Some(Nested(i)) =>
      if i in h.cells && h.cells[i].content.Some? && h.cells[i].content.value.Plain?
      then Some(h.cells[i].content.value.res) else None
  }

  /** A callback on a nested cell that holds a future moves on to that future's cell. */
  ghost function Forward<K>(h: Heap<K>, k: K): Heap<K>
    requires k in h.cells
  {
    match h.cells[k].content
    case Some(Nested(i)) =>
      if i in h.cells && h.cells[k].callback.Some?
      then h.(cells := h.cells[i := h.cells[i].(callback := h.cells[k].callback)]) else h
    case _ => h
  }

  ghost function SetContent<K>(h: Heap<K>, k: K, c: Content<K>): Heap<K>
    requires k in h.cells
  {
    Forward(h.(cells := h.cells[k := h.cells[k].(content := Some(c))]), k)
  }

  /** Resolve a cell; if its callback can run, run it and resolve the callback's cell in turn. */
  ghost function Resolve<K>(h: Heap<K>, k: K, c: Content<K>): (r: Heap<K>)
    requires Ready(h, k, c)
    ensures Inv(r) && SameWiring(h, r) && SameRootsBut(h, r, Some(k)) && r.cells[k].content == Some(c)
    decreases |Unresolved(h)|
  {
    SetContentKeeps(h, k, c);
    Continue(SetContent(h, k, c), k, |Unresolved(h)|)
  }

  /** Run the callback waiting on cell k if its input is there. */
  ghost function Continue<K>(h: Heap<K>, k: K, bound: nat): (r: Heap<K>)
    requires Waiting(h, k) && |Unresolved(h)| < bound
    ensures Inv(r) && SameWiring(h, r) && SameRootsBut(h, r, None)
    decreases bound, 0
  {
    if h.cells[k].callback.Some? && Input(h, k).Some? then
      var cb := h.cells[k].callback.value;
      RunReady(h, k);
      Resolve(Ran(h, cb.target), cb.target, Outcome(cb.f, cb.gives, Input(h, k).value))
    else h
  }

  ghost function Ran<K>(h: Heap<K>, t: K): Heap<K>
  {
    h.(log := h.log + [t])
  }

  ghost function Unresolved<K>(h: Heap<K>): set<K>
  {
    set k | k in h.cells && h.cells[k].content == None
  }

  // ----- the invariant -----

  /** Callbacks, targets and moved futures refer to each other consistently. */
  ghost predicate Wired<K>(h: Heap<K>)
  {
    && (forall k :: k in h.cells && h.cells[k].callback.Some? ==> CallbackWired(h, k))
    && (forall t :: t in h.cells && h.cells[t].def.Derived? ==> DefWired(h, t))
    && (forall k :: k in h.cells && h.cells[k].content.Some? ==> ContentWired(h, k, h.cells[k].content.value))
    && (forall k :: k in h.cells && h.cells[k].home.Some? ==> HomeWired(h, k))
  }

  /** A callback belongs to the cell it was attached to, or was passed on by the nested cell that holds it. */
  ghost predicate CallbackWired<K>(h: Heap<K>, k: K)
    requires k in h.cells && h.cells[k].callback.Some?
  {
    var cb := h.cells[k].callback.value;
    && cb.target in h.cells && h.cells[cb.target].def.Derived?
    && var d := h.cells[cb.target].def;
       && d.f == cb.f && d.gives == cb.gives && d.src in h.cells
       && (d.src == k || h.cells[d.src].content == Some(Nested(k)))
  }

  ghost predicate DefWired<K>(h: Heap<K>, t: K)
    requires t in h.cells && h.cells[t].def.Derived?
  {
    var d := h.cells[t].def;
    && d.src in h.cells && d.src != t
    && h.cells[d.src].callback == Some(Callback(d.f, d.gives, t))
    && h.cells[t].nested == d.gives.Some?
    && (d.gives.Some? ==> Owned(h, t, d.gives.value))
  }

  ghost predicate Owned<K>(h: Heap<K>, k: K, i: K)
  {
    i in h.cells && !h.cells[i].nested && h.cells[i].home == Some(k)
  }

  ghost predicate ContentWired<K>(h: Heap<K>, k: K, c: Content<K>)
    requires k in h.cells
  {
    match c
    case Plain(r) => r.Ok? ==> !h.cells[k].nested
    case Nested(i) => h.cells[k].nested && Owned(h, k, i)
                      && (h.cells[k].content == Some(c) ==> h.cells[i].callback == h.cells[k].callback)
  }

  /** A moved future has no callback but the one its new home passes on. */
  ghost predicate HomeWired<K>(h: Heap<K>, i: K)
    requires i in h.cells && h.cells[i].home.Some?
  {
    var k := h.cells[i].home.value;
    && k in h.cells && h.cells[k].nested && !h.cells[i].nested
    && (h.cells[k].content != Some(Nested(i)) ==> h.cells[i].callback == None)
  }

  /** A derived cell holds what its callback makes of its input, once the input is there. */
  ghost predicate Consistent<K>(h: Heap<K>, t: K)
    requires t in h.cells && h.cells[t].def.Derived? && h.cells[t].def.src in h.cells
  {
    var d := h.cells[t].def;
    match Input(h, d.src)
    case None => h.cells[t].content == None
    case Some(r) => h.cells[t].content == Some(Outcome(d.f, d.gives, r))
  }

  ghost predicate ConsistentBut<K>(h: Heap<K>, x: Option<K>)
    requires Wired(h)
  {
    forall t :: t in h.cells && h.cells[t].def.Derived? && x != Some(t) ==> Consistent(h, t)
  }

  /** No callback ran twice, and those that ran are the ones whose cells are resolved (but for x, about to be). */
  ghost predicate LoggedBut<K>(h: Heap<K>, x: Option<K>)
  {
    && (forall i, j :: 0 <= i < j < |h.log| ==> h.log[i] != h.log[j])
    && (forall t :: t in h.log ==> t in h.cells && h.cells[t].def.Derived?)
    && (forall t :: t in h.cells && h.cells[t].def.Derived? ==>
          (t in h.log <==> h.cells[t].content.Some? || x == Some(t)))
  }

  /** A cell whose result is known before the n-th callback runs. */
  ghost predicate Before<K>(h: Heap<K>, n: nat, k: K)
    requires n <= |h.log|
  {
    k in h.cells && (h.cells[k].def.Root? || k in h.log[..n])
  }

  /** Every callback ran after those its input came from. */
  ghost predicate Causal<K>(h: Heap<K>)
  {
    forall n :: 0 <= n < |h.log| && h.log[n] in h.cells && h.cells[h.log[n]].def.Derived? ==> CausalAt(h, n)
  }

  ghost predicate CausalAt<K>(h: Heap<K>, n: nat)
    requires n < |h.log| && h.log[n] in h.cells && h.cells[h.log[n]].def.Derived?
  {
    var s := h.cells[h.log[n]].def.src;
    && s in h.cells && h.cells[s].content.Some? && Before(h, n, s)
    && (h.cells[s].content.value.Nested? ==>
          Before(h, n, h.cells[s].content.value.inner) && h.cells[h.cells[s].content.value.inner].content.Some?)
  }

  ghost predicate Inv<K>(h: Heap<K>)
  {
    Wired(h) && ConsistentBut(h, None) && LoggedBut(h, None) && Causal(h)
  }

  /** Cell k is unresolved and everything but k is as it should be once k gets content c. */
  ghost predicate Ready<K>(h: Heap<K>, k: K, c: Content<K>)
  {
    && Wired(h) && k in h.cells && h.cells[k].content == None
    && ContentWired(h, k, c)
    && ConsistentBut(h, Some(k)) && LoggedBut(h, Some(k)) && Causal(h)
    && (h.cells[k].def.Derived? ==>
          var d := h.cells[k].def;
          Input(h, d.src).Some? && c == Outcome(d.f, d.gives, Input(h, d.src).value))
  }

  /** Everything is as it should be except that the callback on k may still have to run. */
  ghost predicate Waiting<K>(h: Heap<K>, k: K)
  {
    && Wired(h) && k in h.cells
    && LoggedBut(h, None) && Causal(h)
    && match h.cells[k].callback
       case None => ConsistentBut(h, None)
       case Some(cb) => cb.target in h.cells && ConsistentBut(h, Some(cb.target)) && h.cells[cb.target].content == None
                        && h.cells[cb.target].def.Derived? && Input(h, h.cells[cb.target].def.src) == Input(h, k)
  }

  /** Resolving changes no definition, and no root but the one resolved. */
  ghost predicate SameWiring<K>(h: Heap<K>, r: Heap<K>)
  {
    && r.cells.Keys == h.cells.Keys
    && (forall k :: k in h.cells ==> r.cells[k].def == h.cells[k].def && r.cells[k].nested == h.cells[k].nested
                                     && r.cells[k].home == h.cells[k].home
                                     && (h.cells[k].home == None ==> r.cells[k].callback == h.cells[k].callback))
    && (forall k :: k in h.cells && h.cells[k].content.Some? ==> r.cells[k].content == h.cells[k].content)
    && h.log <= r.log
  }

  ghost predicate SameRootsBut<K>(h: Heap<K>, r: Heap<K>, x: Option<K>)
    requires h.cells.Keys <= r.cells.Keys
  {
    forall k :: k in h.cells && h.cells[k].def.Root? && x != Some(k) ==> r.cells[k].content == h.cells[k].content
  }

  // ----- its preservation -----

  /** What setting a content changes: the cell, and the cell its callback is passed on to. */
  ghost predicate ContentSet<K>(h: Heap<K>, k: K, c: Content<K>, r: Heap<K>)
    requires k in h.cells
  {
    && r.log == h.log && r.cells.Keys == h.cells.Keys
    && r.cells[k] == h.cells[k].(content := Some(c))
    && (forall j :: j in h.cells && j != k && c != Nested(j) ==> r.cells[j] == h.cells[j])
    && (forall j :: j in h.cells && c == Nested(j) ==> j != k)
    && (forall j :: j in h.cells && c == Nested(j) ==> h.cells[j].callback == None)
    && (forall j :: j in h.cells && c == Nested(j) ==> r.cells[j] == h.cells[j].(callback := h.cells[k].callback))
  }

  lemma SetContentChanges<K>(h: Heap<K>, k: K, c: Content<K>)
    requires Ready(h, k, c)
    ensures ContentSet(h, k, c, SetContent(h, k, c))
  {
    assert c.Nested? ==> HomeWired(h, c.inner);
  }

  lemma CallbackStaysWired<K>(h: Heap<K>, k: K, c: Content<K>, r: Heap<K>, j: K)
    requires Ready(h, k, c) && ContentSet(h, k, c, r) && j in r.cells && r.cells[j].callback.Some?
    ensures CallbackWired(r, j)
  {
    if c == Nested(j) {
      assert CallbackWired(h, k);
    } else {
      assert CallbackWired(h, j);
    }
  }

  lemma DefStaysWired<K>(h: Heap<K>, k: K, c: Content<K>, r: Heap<K>, t: K)
    requires Ready(h, k, c) && ContentSet(h, k, c, r) && t in r.cells && r.cells[t].def.Derived?
    ensures DefWired(r, t)
  {
    assert DefWired(h, t);
  }

  lemma ContentStaysWired<K>(h: Heap<K>, k: K, c: Content<K>, r: Heap<K>, j: K)
    requires Ready(h, k, c) && ContentSet(h, k, c, r) && j in r.cells && r.cells[j].content.Some?
    ensures ContentWired(r, j, r.cells[j].content.value)
  {
    assert j != k ==> ContentWired(h, j, h.cells[j].content.value);
    if r.cells[j].content.value.Nested? {
      assert HomeWired(h, r.cells[j].content.value.inner);
    }
  }

  lemma HomeStaysWired<K>(h: Heap<K>, k: K, c: Content<K>, r: Heap<K>, j: K)
    requires Ready(h, k, c) && ContentSet(h, k, c, r) && j in r.cells && r.cells[j].home.Some?
    ensures HomeWired(r, j)
  {
    assert HomeWired(h, j);
  }

  lemma StaysWired<K>(h: Heap<K>, k: K, c: Content<K>, r: Heap<K>)
    requires Ready(h, k, c) && ContentSet(h, k, c, r)
    ensures Wired(r)
  {
    forall j | j in r.cells && r.cells[j].callback.Some?
      ensures CallbackWired(r, j)
    {
      CallbackStaysWired(h, k, c, r, j);
    }
    forall t | t in r.cells && r.cells[t].def.Derived?
      ensures DefWired(r, t)
    {
      DefStaysWired(h, k, c, r, t);
    }
    forall j | j in r.cells && r.cells[j].content.Some?
      ensures ContentWired(r, j, r.cells[j].content.value)
    {
      ContentStaysWired(h, k, c, r, j);
    }
    forall j | j in r.cells && r.cells[j].home.Some?
      ensures HomeWired(r, j)
    {
      HomeStaysWired(h, k, c, r, j);
    }
  }

  /** Only the callback waiting on k sees a new input. */
  lemma OthersStayConsistent<K>(h: Heap<K>, k: K, c: Content<K>, r: Heap<K>, t: K)
    requires Ready(h, k, c) && ContentSet(h, k, c, r) && Wired(r)
    requires t in r.cells && r.cells[t].def.Derived? && (h.cells[k].callback == None || t != h.cells[k].callback.value.target)
    ensures Consistent(r, t)
  {
    OtherInput(h, k, c, r, t);
    if t != k {
      assert Consistent(h, t);
    }
  }

  /** Its input stays what it was. */
  lemma OtherInput<K>(h: Heap<K>, k: K, c: Content<K>, r: Heap<K>, t: K)
    requires Ready(h, k, c) && ContentSet(h, k, c, r)
    requires t in h.cells && h.cells[t].def.Derived? && (h.cells[k].callback == None || t != h.cells[k].callback.value.target)
    ensures h.cells[t].def.src in r.cells && Input(r, h.cells[t].def.src) == Input(h, h.cells[t].def.src)
  {
    assert DefWired(h, t);
    var s := h.cells[t].def.src;
    assert h.cells[s].content.Some? ==> ContentWired(h, s, h.cells[s].content.value);
  }

  lemma TargetWaits<K>(h: Heap<K>, k: K, c: Content<K>, r: Heap<K>)
    requires Ready(h, k, c) && ContentSet(h, k, c, r) && Wired(r) && h.cells[k].callback.Some?
    ensures var t := h.cells[k].callback.value.target;
      && t in r.cells && r.cells[t].content == None && r.cells[t].def.Derived?
      && Input(r, r.cells[t].def.src) == Input(r, k)
  {
    var t := h.cells[k].callback.value.target;
    assert CallbackWired(h, k) && DefWired(h, t);
    var s := h.cells[t].def.src;
    assert h.cells[s].content.Some? ==> ContentWired(h, s, h.cells[s].content.value);
    if t != k {
      assert Consistent(h, t);
    }
  }

  lemma SetContentKeeps<K>(h: Heap<K>, k: K, c: Content<K>)
    requires Ready(h, k, c)
    ensures var r := SetContent(h, k, c);
      && Waiting(r, k) && SameWiring(h, r) && |Unresolved(r)| < |Unresolved(h)|
      && SameRootsBut(h, r, Some(k)) && r.cells[k].content == Some(c)
  {
    SetContentChanges(h, k, c);
    ChangedKeeps(h, k, c, SetContent(h, k, c));
  }

  lemma CausesStay<K>(h: Heap<K>, k: K, c: Content<K>, r: Heap<K>, n: nat)
    requires Ready(h, k, c) && ContentSet(h, k, c, r)
    requires n < |r.log| && r.log[n] in r.cells && r.cells[r.log[n]].def.Derived?
    ensures CausalAt(r, n)
  {
    assert CausalAt(h, n);
  }

  lemma HistoryStays<K>(h: Heap<K>, k: K, c: Content<K>, r: Heap<K>)
    requires Ready(h, k, c) && ContentSet(h, k, c, r)
    ensures LoggedBut(r, None) && Causal(r)
  {
    forall n | 0 <= n < |r.log| && r.log[n] in r.cells && r.cells[r.log[n]].def.Derived?
      ensures CausalAt(r, n)
    {
      CausesStay(h, k, c, r, n);
    }
  }

  lemma ChangedKeeps<K>(h: Heap<K>, k: K, c: Content<K>, r: Heap<K>)
    requires Ready(h, k, c) && ContentSet(h, k, c, r)
    ensures Waiting(r, k) && SameWiring(h, r) && |Unresolved(r)| < |Unresolved(h)|
  {
    StaysWired(h, k, c, r);
    forall t | t in r.cells && r.cells[t].def.Derived? && (h.cells[k].callback == None || t != h.cells[k].callback.value.target)
      ensures Consistent(r, t)
    {
      OthersStayConsistent(h, k, c, r, t);
    }
    if h.cells[k].callback.Some? {
      TargetWaits(h, k, c, r);
    }
    HistoryStays(h, k, c, r);
    assert k in Unresolved(h);
    assert Unresolved(r) == Unresolved(h) - {k};
  }

  lemma RunReady<K>(h: Heap<K>, k: K)
    requires Waiting(h, k) && h.cells[k].callback.Some? && Input(h, k).Some?
    ensures var cb := h.cells[k].callback.value;
      Ready(Ran(h, cb.target), cb.target, Outcome(cb.f, cb.gives, Input(h, k).value))
  {
    var cb := h.cells[k].callback.value;
    var t := cb.target;
    var r := Ran(h, t);
    RanWired(h, t);
    assert CallbackWired(h, k) && DefWired(h, t);
    forall u | u in r.cells && r.cells[u].def.Derived? && u != t
      ensures Consistent(r, u)
    {
      assert Consistent(h, u) && DefWired(h, u);
      assert Input(r, h.cells[u].def.src) == Input(h, h.cells[u].def.src);
    }
    RanCausal(h, t, k);
  }

  lemma RanWired<K>(h: Heap<K>, t: K)
    requires Wired(h)
    ensures Wired(Ran(h, t))
  {
    var r := Ran(h, t);
    assert forall k :: k in h.cells && h.cells[k].callback.Some? ==> CallbackWired(h, k) ==> CallbackWired(r, k);
    assert forall k :: k in h.cells && h.cells[k].def.Derived? ==> DefWired(h, k) ==> DefWired(r, k);
    assert forall k :: k in h.cells && h.cells[k].content.Some? ==>
        ContentWired(h, k, h.cells[k].content.value) ==> ContentWired(r, k, h.cells[k].content.value);
    assert forall k :: k in h.cells && h.cells[k].home.Some? ==> HomeWired(h, k) ==> HomeWired(r, k);
  }

  lemma RanCausal<K>(h: Heap<K>, t: K, k: K)
    requires Waiting(h, k) && h.cells[k].callback.Some? && h.cells[k].callback.value.target == t && Input(h, k).Some?
    ensures Causal(Ran(h, t))
  {
    var r := Ran(h, t);
    assert CallbackWired(h, k) && DefWired(h, t);
    forall n | 0 <= n < |r.log| && r.log[n] in r.cells && r.cells[r.log[n]].def.Derived?
      ensures CausalAt(r, n)
    {
      if n < |h.log| {
        assert CausalAt(h, n) && r.log[..n] == h.log[..n];
      } else {
        assert r.log[..n] == h.log;
        var s := h.cells[t].def.src;
        assert h.cells[s].content.Some? ==> ContentWired(h, s, h.cells[s].content.value);
      }
    }
  }

  // ----- what the program may do, in any order -----

  datatype Op<K> =
    | NewPromise(k: K, nested: bool)
    | Next(k: K, f: Fn, gives: Option<K>, t: K)
    | Fulfil(k: K, c: Content<K>)
    | Destroy(k: K)

  /** The program still holds the future of this cell. */
  ghost predicate Free<K>(h: Heap<K>, k: K)
  {
    k in h.cells && h.cells[k].callback == None && h.cells[k].home == None
  }

  /** What the types, moved handles and satisfied promises of the program allow. */
  ghost predicate Legal<K>(h: Heap<K>, op: Op<K>)
  {
    match op
    case NewPromise(k, _) => k !in h.cells
    case Next(k, _, gives, t) =>
      Free(h, k) && t !in h.cells
      && (gives.Some? ==> gives.value != k && Free(h, gives.value) && !h.cells[gives.value].nested)
    case Fulfil(k, c) =>
      k in h.cells && h.cells[k].def.Root? && h.cells[k].content == None
      && (match c
          case Plain(r) => r.Ok? ==> !h.cells[k].nested
          case Nested(i) => h.cells[k].nested && Free(h, i) && !h.cells[i].nested)
    case Destroy(k) => k in h.cells && h.cells[k].def.Root?
  }

  ghost function Move<K>(h: Heap<K>, i: K, home: K): Heap<K>
    requires i in h.cells
  {
    h.(cells := h.cells[i := h.cells[i].(home := Some(home))])
  }

  /** Make the cell t that will hold the callback's result, and move the future the callback takes along. */
  ghost function Grow<K>(h: Heap<K>, k: K, f: Fn, gives: Option<K>, t: K): Heap<K>
    requires Legal(h, Next(k, f, gives, t))
  {
    var h1 := if gives.Some? then Move(h, gives.value, t) else h;
    h1.(cells := h1.cells[t := Cell(None, None, Derived(k, f, gives), None, gives.Some?)])
  }

  ghost function Stored<K>(h: Heap<K>, k: K, cb: Callback<K>): Heap<K>
    requires k in h.cells
  {
    h.(cells := h.cells[k := h.cells[k].(callback := Some(cb))])
  }

  ghost function Attach<K>(h: Heap<K>, k: K, f: Fn, gives: Option<K>, t: K): Heap<K>
    requires Legal(h, Next(k, f, gives, t))
  {
    Stored(Grow(h, k, f, gives, t), k, Callback(f, gives, t))
  }

  ghost function Apply<K>(h: Heap<K>, op: Op<K>): (r: Heap<K>)
    requires Inv(h) && Legal(h, op)
    ensures Inv(r)
  {
    match op
    case NewPromise(k, nested) =>
      NewPromiseKeeps(h, k, nested);
      h.(cells := h.cells[k := Cell(None, None, Root, None, nested)])
    case Next(k, f, gives, t) =>
      NextKeeps(h, k, f, gives, t);
      var h1 := Forward(Attach(h, k, f, gives, t), k);
      Continue(h1, k, |Unresolved(h1)| + 1)
    case Fulfil(k, c) =>
      FulfilReady(h, k, c);
      Resolve(if c.Nested? then Move(h, c.inner, k) else h, k, c)
    case Destroy(k) =>
      if h.cells[k].content.Some? then h
      else
        FulfilReady(h, k, Plain(Err(Broken)));
        Resolve(h, k, Plain(Err(Broken)))
  }

  /** One new root among the cells. */
  ghost predicate RootAdded<K>(h: Heap<K>, k: K, nested: bool, r: Heap<K>)
  {
    && k !in h.cells && r.log == h.log && r.cells.Keys == h.cells.Keys + {k}
    && r.cells[k] == Cell(None, None, Root, None, nested)
    && forall j :: j in h.cells ==> r.cells[j] == h.cells[j]
  }

  lemma RootAddedWired<K>(h: Heap<K>, k: K, nested: bool, r: Heap<K>)
    requires Inv(h) && RootAdded(h, k, nested, r)
    ensures Wired(r)
  {
    assert forall j :: j in h.cells && h.cells[j].callback.Some? ==> CallbackWired(h, j) ==> CallbackWired(r, j);
    assert forall j :: j in h.cells && h.cells[j].def.Derived? ==> DefWired(h, j) ==> DefWired(r, j);
    assert forall j :: j in h.cells && h.cells[j].content.Some? ==>
        ContentWired(h, j, h.cells[j].content.value) ==> ContentWired(r, j, h.cells[j].content.value);
    assert forall j :: j in h.cells && h.cells[j].home.Some? ==> HomeWired(h, j) ==> HomeWired(r, j);
  }

  lemma RootAddedKeeps<K>(h: Heap<K>, k: K, nested: bool, r: Heap<K>)
    requires Inv(h) && RootAdded(h, k, nested, r)
    ensures Inv(r)
  {
    RootAddedWired(h, k, nested, r);
    KeepsHistory(h, r);
    forall u | u in r.cells && r.cells[u].def.Derived?
      ensures Consistent(r, u)
    {
      KeepsConsistent(h, r, u);
    }
  }

  lemma NewPromiseKeeps<K>(h: Heap<K>, k: K, nested: bool)
    requires Inv(h) && k !in h.cells
    ensures Inv(h.(cells := h.cells[k := Cell(None, None, Root, None, nested)]))
  {
    RootAddedKeeps(h, k, nested, h.(cells := h.cells[k := Cell(None, None, Root, None, nested)]));
  }

  /** What attaching changes: the cell, its new target, the future the callback took along, and the cell it was passed on to. */
  ghost predicate Attached<K>(h: Heap<K>, k: K, cb: Callback<K>, r: Heap<K>)
    requires k in h.cells
  {
    && r.log == h.log && r.cells.Keys == h.cells.Keys + {cb.target}
    && cb.target !in h.cells
    && r.cells[cb.target] == Cell(None, None, Derived(k, cb.f, cb.gives), None, cb.gives.Some?)
    && r.cells[k] == h.cells[k].(callback := Some(cb))
    && (forall j :: j in h.cells && cb.gives == Some(j) ==> r.cells[j] == h.cells[j].(home := Some(cb.target)))
    && (forall j :: j in h.cells && h.cells[k].content == Some(Nested(j)) ==> r.cells[j] == h.cells[j].(callback := Some(cb)))
    && (forall j :: j in h.cells && j != k && cb.gives != Some(j) && h.cells[k].content != Some(Nested(j)) ==>
          r.cells[j] == h.cells[j])
  }

  lemma StoredCells<K>(h: Heap<K>, k: K, f: Fn, gives: Option<K>, t: K, h1: Heap<K>)
    requires Legal(h, Next(k, f, gives, t)) && h1 == Attach(h, k, f, gives, t)
    ensures h1.log == h.log && h1.cells.Keys == h.cells.Keys + {t}
    ensures h1.cells[t] == Cell(None, None, Derived(k, f, gives), None, gives.Some?)
    ensures h1.cells[k] == h.cells[k].(callback := Some(Callback(f, gives, t)))
    ensures gives.Some? ==> h1.cells[gives.value] == h.cells[gives.value].(home := Some(t))
    ensures forall j :: j in h.cells && j != k && gives != Some(j) ==> h1.cells[j] == h.cells[j]
  {
  }

  lemma AttachChanges<K>(h: Heap<K>, k: K, f: Fn, gives: Option<K>, t: K)
    requires Inv(h) && Legal(h, Next(k, f, gives, t))
    ensures Attached(h, k, Callback(f, gives, t), Forward(Attach(h, k, f, gives, t), k))
  {
    if h.cells[k].content.Some? {
      assert ContentWired(h, k, h.cells[k].content.value);
    }
    var h1 := Attach(h, k, f, gives, t);
    StoredCells(h, k, f, gives, t, h1);
    ForwardedCells(h, k, Callback(f, gives, t), h1);
  }

  lemma ForwardedCells<K>(h: Heap<K>, k: K, cb: Callback<K>, h1: Heap<K>)
    requires k in h.cells && cb.target !in h.cells
    requires match h.cells[k].content
             case Some(Nested(i)) => i in h.cells && i != k && cb.gives != Some(i)
             case _ => true
    requires cb.gives.Some? ==> cb.gives.value in h.cells
    requires h1.log == h.log && h1.cells.Keys == h.cells.Keys + {cb.target}
    requires h1.cells[cb.target] == Cell(None, None, Derived(k, cb.f, cb.gives), None, cb.gives.Some?)
    requires h1.cells[k] == h.cells[k].(callback := Some(cb))
    requires cb.gives.Some? ==> h1.cells[cb.gives.value] == h.cells[cb.gives.value].(home := Some(cb.target))
    requires forall j :: j in h.cells && j != k && cb.gives != Some(j) ==> h1.cells[j] == h.cells[j]
    ensures Attached(h, k, cb, Forward(h1, k))
  {
  }

  lemma AttachedCallback<K>(h: Heap<K>, k: K, cb: Callback<K>, r: Heap<K>, j: K)
    requires Inv(h) && Legal(h, Next(k, cb.f, cb.gives, cb.target)) && Attached(h, k, cb, r)
    requires j in r.cells && r.cells[j].callback.Some?
    ensures CallbackWired(r, j)
  {
    if j != k && h.cells[k].content != Some(Nested(j)) {
      assert CallbackWired(h, j);
    }
  }

  lemma AttachedDef<K>(h: Heap<K>, k: K, cb: Callback<K>, r: Heap<K>, t: K)
    requires Inv(h) && Legal(h, Next(k, cb.f, cb.gives, cb.target)) && Attached(h, k, cb, r)
    requires t in r.cells && r.cells[t].def.Derived?
    ensures DefWired(r, t)
  {
    assert t in h.cells ==> DefWired(h, t);
  }

  lemma AttachedContent<K>(h: Heap<K>, k: K, cb: Callback<K>, r: Heap<K>, j: K)
    requires Inv(h) && Legal(h, Next(k, cb.f, cb.gives, cb.target)) && Attached(h, k, cb, r)
    requires j in r.cells && r.cells[j].content.Some?
    ensures ContentWired(r, j, r.cells[j].content.value)
  {
    assert ContentWired(h, j, h.cells[j].content.value);
  }

  lemma AttachedHome<K>(h: Heap<K>, k: K, cb: Callback<K>, r: Heap<K>, j: K)
    requires Inv(h) && Legal(h, Next(k, cb.f, cb.gives, cb.target)) && Attached(h, k, cb, r)
    requires j in r.cells && r.cells[j].home.Some?
    ensures HomeWired(r, j)
  {
    assert j in h.cells && h.cells[j].home.Some? ==> HomeWired(h, j);
  }

  lemma AttachedWired<K>(h: Heap<K>, k: K, cb: Callback<K>, r: Heap<K>)
    requires Inv(h) && Legal(h, Next(k, cb.f, cb.gives, cb.target)) && Attached(h, k, cb, r)
    ensures Wired(r) && Keeps(h, r)
  {
    forall j | j in r.cells && r.cells[j].callback.Some?
      ensures CallbackWired(r, j)
    {
      AttachedCallback(h, k, cb, r, j);
    }
    forall t | t in r.cells && r.cells[t].def.Derived?
      ensures DefWired(r, t)
    {
      AttachedDef(h, k, cb, r, t);
    }
    forall j | j in r.cells && r.cells[j].content.Some?
      ensures ContentWired(r, j, r.cells[j].content.value)
    {
      AttachedContent(h, k, cb, r, j);
    }
    forall j | j in r.cells && r.cells[j].home.Some?
      ensures HomeWired(r, j)
    {
      AttachedHome(h, k, cb, r, j);
    }
  }

  /** A heap with at least these cells, contents and definitions, and with no derived cell resolved besides. */
  ghost predicate Keeps<K>(h: Heap<K>, r: Heap<K>)
  {
    && r.log == h.log && h.cells.Keys <= r.cells.Keys
    && (forall j :: j in h.cells ==> r.cells[j].content == h.cells[j].content && r.cells[j].def == h.cells[j].def)
    && (forall j :: j in r.cells && j !in h.cells && r.cells[j].def.Derived? ==> r.cells[j].content == None)
  }

  lemma KeepsHistory<K>(h: Heap<K>, r: Heap<K>)
    requires Inv(h) && Keeps(h, r)
    ensures LoggedBut(r, None) && Causal(r)
  {
    forall n | 0 <= n < |r.log| && r.log[n] in r.cells && r.cells[r.log[n]].def.Derived?
      ensures CausalAt(r, n)
    {
      assert CausalAt(h, n);
    }
  }

  lemma KeepsConsistent<K>(h: Heap<K>, r: Heap<K>, t: K)
    requires Inv(h) && Keeps(h, r) && t in h.cells && h.cells[t].def.Derived?
    ensures h.cells[t].def.src in r.cells && Consistent(r, t)
  {
    assert DefWired(h, t);
    var s := h.cells[t].def.src;
    assert Consistent(h, t);
    if h.cells[s].content.Some? {
      assert ContentWired(h, s, h.cells[s].content.value);
    }
  }

  lemma NextKeeps<K>(h: Heap<K>, k: K, f: Fn, gives: Option<K>, t: K)
    requires Inv(h) && Legal(h, Next(k, f, gives, t))
    ensures Waiting(Forward(Attach(h, k, f, gives, t), k), k)
  {
    var cb, r := Callback(f, gives, t), Forward(Attach(h, k, f, gives, t), k);
    AttachChanges(h, k, f, gives, t);
    AttachedWired(h, k, cb, r);
    KeepsHistory(h, r);
    forall u | u in r.cells && r.cells[u].def.Derived? && u != t
      ensures Consistent(r, u)
    {
      KeepsConsistent(h, r, u);
    }
    if h.cells[k].content.Some? {
      assert ContentWired(h, k, h.cells[k].content.value);
    }
  }

  /** A future that is free and a nested cell that may hold it. */
  ghost predicate MayMove<K>(h: Heap<K>, i: K, k: K)
  {
    && Wired(h) && Free(h, i) && !h.cells[i].nested
    && k in h.cells && h.cells[k].nested && h.cells[k].content == None
  }

  lemma MovedCallback<K>(h: Heap<K>, i: K, k: K, j: K)
    requires MayMove(h, i, k) && j in h.cells && h.cells[j].callback.Some?
    ensures CallbackWired(Move(h, i, k), j)
  {
    assert CallbackWired(h, j);
  }

  lemma MovedDef<K>(h: Heap<K>, i: K, k: K, j: K)
    requires MayMove(h, i, k) && j in h.cells && h.cells[j].def.Derived?
    ensures DefWired(Move(h, i, k), j)
  {
    assert DefWired(h, j);
  }

  lemma MovedContent<K>(h: Heap<K>, i: K, k: K, j: K)
    requires MayMove(h, i, k) && j in h.cells && h.cells[j].content.Some?
    ensures ContentWired(Move(h, i, k), j, h.cells[j].content.value)
  {
    assert ContentWired(h, j, h.cells[j].content.value);
  }

  lemma MovedHome<K>(h: Heap<K>, i: K, k: K, j: K)
    requires MayMove(h, i, k) && j in h.cells && Move(h, i, k).cells[j].home.Some?
    ensures HomeWired(Move(h, i, k), j)
  {
    assert j != i ==> HomeWired(h, j);
  }

  /** Moving a future that is free to the nested cell that will hold it. */
  lemma MovedKeeps<K>(h: Heap<K>, i: K, k: K)
    requires MayMove(h, i, k)
    ensures Wired(Move(h, i, k)) && Keeps(h, Move(h, i, k))
  {
    var r := Move(h, i, k);
    forall j | j in h.cells && h.cells[j].callback.Some?
      ensures CallbackWired(r, j)
    {
      MovedCallback(h, i, k, j);
    }
    forall j | j in h.cells && h.cells[j].def.Derived?
      ensures DefWired(r, j)
    {
      MovedDef(h, i, k, j);
    }
    forall j | j in h.cells && h.cells[j].content.Some?
      ensures ContentWired(r, j, h.cells[j].content.value)
    {
      MovedContent(h, i, k, j);
    }
    forall j | j in h.cells && r.cells[j].home.Some?
      ensures HomeWired(r, j)
    {
      MovedHome(h, i, k, j);
    }
  }

  /** A root gets its content with everything else as it is. */
  lemma KeptReady<K>(h: Heap<K>, r: Heap<K>, k: K, c: Content<K>)
    requires Inv(h) && Keeps(h, r) && Wired(r) && h.cells.Keys == r.cells.Keys
    requires k in h.cells && h.cells[k].def.Root? && h.cells[k].content == None && ContentWired(r, k, c)
    ensures Ready(r, k, c)
  {
    KeepsHistory(h, r);
    forall u | u in r.cells && r.cells[u].def.Derived?
      ensures Consistent(r, u)
    {
      KeepsConsistent(h, r, u);
    }
  }

  lemma FulfilReady<K>(h: Heap<K>, k: K, c: Content<K>)
    requires Inv(h) && Legal(h, Fulfil(k, c))
    ensures Ready(if c.Nested? then Move(h, c.inner, k) else h, k, c)
  {
    if c.Nested? {
      MovedKeeps(h, c.inner, k);
      KeptReady(h, Move(h, c.inner, k), k, c);
    } else {
      KeptReady(h, h, k, c);
    }
  }
}
