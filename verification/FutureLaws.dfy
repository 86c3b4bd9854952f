/** What holds of promises and futures in every legal run, whatever the order of its steps. */
module FutureLaws {
  import opened Wrappers
  import opened Futures

  ghost function Empty<K>(): (h: Heap<K>)
    ensures Inv(h)
  {
    Heap(map[], [])
  }

  ghost predicate LegalRun<K>(h: Heap<K>, ops: seq<Op<K>>)
    requires Inv(h)
    decreases |ops|
  {
    ops == [] || (Legal(h, ops[0]) && LegalRun(Apply(h, ops[0]), ops[1..]))
  }

  ghost function Run<K>(h: Heap<K>, ops: seq<Op<K>>): (r: Heap<K>)
    requires Inv(h) && LegalRun(h, ops)
    ensures Inv(r)
    decreases |ops|
  {
    if ops == [] then h else Run(Apply(h, ops[0]), ops[1..])
  }

  // ----- each callback runs exactly once -----

  lemma {:induction false} CountDistinct<K>(s: seq<K>, x: K)
    requires forall i, j :: 0 <= i < j < |s| ==> s[i] != s[j]
    ensures multiset(s)[x] == if x in s then 1 else 0
    decreases |s|
  {
    if s != [] {
      var init, last := s[..|s| - 1], s[|s| - 1];
      CountDistinct(init, x);
      assert s == init + [last];
      assert last !in init;
    }
  }

  /** A callback has run once if its cell is resolved, and not at all otherwise. */
  lemma ExactlyOnce<K>(ops: seq<Op<K>>, t: K)
    requires LegalRun(Empty(), ops)
    requires t in Run(Empty(), ops).cells && Run(Empty(), ops).cells[t].def.Derived?
    ensures var h := Run(Empty(), ops);
      multiset(h.log)[t] == if h.cells[t].content.Some? then 1 else 0
  {
    CountDistinct(Run(Empty(), ops).log, t);
  }

  // ----- chains -----

  /** Cell t holds the result of callback f on cell s. */
  ghost predicate Linked<K>(h: Heap<K>, s: K, f: Fn, t: K)
  {
    s in h.cells && t in h.cells && h.cells[t].def == Derived(s, f, None)
  }

  /** Each cell of ks holds the result of a callback, in turn those of fs, on the cell before it. */
  ghost predicate IsChain<K>(h: Heap<K>, ks: seq<K>, fs: seq<Fn>)
    ensures IsChain(h, ks, fs) ==> |ks| == |fs| + 1 && ks[0] in h.cells && ks[|fs|] in h.cells
    decreases |fs|
  {
    && |ks| == |fs| + 1 && ks[0] in h.cells
    && (fs != [] ==> Linked(h, ks[0], fs[0], ks[1]) && IsChain(h, ks[1..], fs[1..]))
  }

  function Compose(fs: seq<Fn>, r: Res): Res
  {
    if fs == [] then r else Compose(fs[1..], fs[0](r))
  }

  /**
   * In any run that builds a chain, whenever its head was resolved: the end holds the
   * composition of the callbacks over the head's value or exception; and nothing before.
   */
  lemma {:induction false} ChainResult<K>(h: Heap<K>, ks: seq<K>, fs: seq<Fn>)
    requires Inv(h) && IsChain(h, ks, fs) && fs != []
    ensures match Input(h, ks[0])
            case None => h.cells[ks[|fs|]].content == None
            case Some(r) => h.cells[ks[|fs|]].content == Some(Plain(Compose(fs, r)))
    decreases |fs|
  {
    assert DefWired(h, ks[1]) && Consistent(h, ks[1]);
    if |fs| > 1 {
      ChainResult(h, ks[1..], fs[1..]);
    } else {
      assert fs[1..] == [];
    }
  }

  lemma {:induction false} LinkAt<K>(h: Heap<K>, ks: seq<K>, fs: seq<Fn>, i: nat)
    requires IsChain(h, ks, fs) && i < |fs|
    ensures Linked(h, ks[i], fs[i], ks[i + 1])
    decreases i
  {
    if i > 0 {
      LinkAt(h, ks[1..], fs[1..], i - 1);
    }
  }

  /** The callbacks of a chain run in chain order. */
  lemma ChainOrder<K>(h: Heap<K>, ks: seq<K>, fs: seq<Fn>, i: nat, n: nat)
    requires Inv(h) && IsChain(h, ks, fs) && 0 < i < |fs|
    requires n < |h.log| && h.log[n] == ks[i + 1]
    ensures ks[i] in h.log[..n]
  {
    LinkAt(h, ks, fs, i);
    LinkAt(h, ks, fs, i - 1);
    assert CausalAt(h, n);
  }

  /** A destroyed head promise resolves the whole chain with the broken-promise exception. */
  lemma {:induction false} BrokenChain(fs: seq<Fn>)
    requires forall i, e :: 0 <= i < |fs| ==> fs[i](Err(e)) == Err(e)
    ensures Compose(fs, Err(Broken)) == Err(Broken)
  {
    if fs != [] {
      assert fs[0](Err(Broken)) == Err(Broken);
      forall i, e | 0 <= i < |fs| - 1
        ensures fs[1..][i](Err(e)) == Err(e)
      {
        assert fs[1..][i] == fs[i + 1];
      }
      BrokenChain(fs[1..]);
    }
  }

  // ----- what a callback leaves in its cell -----

  /** A callback on cell s is called with r: the cell's own result, or that of the future it holds. */
  ghost predicate Gets<K>(h: Heap<K>, s: K, r: Res)
  {
    s in h.cells && match h.cells[s].content
                    case None => false
                    case Some(Plain(x)) => x == r
                    case Some(Nested(i)) => i in h.cells && h.cells[i].content == Some(Plain(r))
  }

  /** Cell t holds what f made of r: the exception it threw, or else its value or the future it gave. */
  ghost predicate Gave<K>(h: Heap<K>, t: K, f: Fn, gives: Option<K>, r: Res)
  {
    t in h.cells && match f(r)
                    case Err(e) => h.cells[t].content == Some(Plain(Err(e)))
                    case Ok(v) => h.cells[t].content == match gives case None => Some(Plain(Ok(v))) case Some(i) => Some(Nested(i))
  }

  lemma GetsInput<K>(h: Heap<K>, s: K)
    requires Inv(h) && s in h.cells
    ensures forall r :: Gets(h, s, r) <==> Input(h, s) == Some(r)
  {
    if h.cells[s].content.Some? {
      assert ContentWired(h, s, h.cells[s].content.value);
      if h.cells[s].content.value.Nested? {
        var i := h.cells[s].content.value.inner;
        if h.cells[i].content.Some? {
          assert ContentWired(h, i, h.cells[i].content.value);
        }
      }
    }
  }

  /**
   * In every legal run, whatever the order of its steps: the cell of a callback holds what
   * its function made of the result it got, an exception included, and nothing before.
   */
  lemma CallbackResult<K>(ops: seq<Op<K>>, t: K)
    requires LegalRun(Empty(), ops)
    requires t in Run(Empty(), ops).cells && Run(Empty(), ops).cells[t].def.Derived?
    ensures var h := Run(Empty(), ops);
      var d := h.cells[t].def;
      && (forall r :: Gets(h, d.src, r) ==> Gave(h, t, d.f, d.gives, r))
      && ((forall r :: !Gets(h, d.src, r)) ==> h.cells[t].content == None)
  {
    CellGave(Run(Empty(), ops), t);
  }

  lemma OutcomeGave<K>(h: Heap<K>, t: K, f: Fn, gives: Option<K>, r: Res)
    requires t in h.cells && h.cells[t].content == Some(Outcome(f, gives, r))
    ensures Gave(h, t, f, gives, r)
  {
  }

  lemma CellGave<K>(h: Heap<K>, t: K)
    requires Inv(h) && t in h.cells && h.cells[t].def.Derived?
    ensures var d := h.cells[t].def;
      && (forall r :: Gets(h, d.src, r) ==> Gave(h, t, d.f, d.gives, r))
      && ((forall r :: !Gets(h, d.src, r)) ==> h.cells[t].content == None)
  {
    var d := h.cells[t].def;
    assert DefWired(h, t) && Consistent(h, t);
    GetsInput(h, d.src);
    if Input(h, d.src).Some? {
      assert Gets(h, d.src, Input(h, d.src).value);
      OutcomeGave(h, t, d.f, d.gives, Input(h, d.src).value);
    }
  }

  /**
   * A callback on a future of a future gets the inner future's result, or a failed future
   * with the outer exception: whatever came first of outer value, inner value and callback.
   */
  lemma FlattenIsBind<K>(ops: seq<Op<K>>, outer: K, t: K)
    requires LegalRun(Empty(), ops)
    requires var h := Run(Empty(), ops);
      t in h.cells && h.cells[t].def.Derived? && h.cells[t].def.src == outer && outer in h.cells && h.cells[outer].nested
    ensures var h := Run(Empty(), ops);
      var d := h.cells[t].def;
      match h.cells[outer].content
      case None => h.cells[t].content == None
      case Some(Plain(r)) => r.Err? && Gave(h, t, d.f, d.gives, r)
      case Some(Nested(i)) =>
        i in h.cells && (match h.cells[i].content
          case None => h.cells[t].content == None
          case Some(c) => c.Plain? && Gave(h, t, d.f, d.gives, c.res))
  {
    var h := Run(Empty(), ops);
    CallbackResult(ops, t);
    if h.cells[outer].content.Some? {
      var c := h.cells[outer].content.value;
      assert ContentWired(h, outer, c);
      if c.Plain? {
        assert Gets(h, outer, c.res);
      } else if h.cells[c.inner].content.Some? {
        assert ContentWired(h, c.inner, h.cells[c.inner].content.value);
        assert Gets(h, outer, h.cells[c.inner].content.value.res);
      }
    }
  }

  /**
   * Behind a callback f that gives a future i, a callback g gets the exception f threw, or
   * else the result of i as soon as it is there.
   */
  lemma Bind<K>(ops: seq<Op<K>>, s: K, t: K, u: K, f: Fn, g: Fn, i: K, r: Res)
    requires LegalRun(Empty(), ops)
    requires var h := Run(Empty(), ops);
      && t in h.cells && h.cells[t].def == Derived(s, f, Some(i)) && Gets(h, s, r)
      && u in h.cells && h.cells[u].def == Derived(t, g, None)
    ensures var h := Run(Empty(), ops);
      match f(r)
      case Err(e) => h.cells[u].content == Some(Plain(g(Err(e))))
      case Ok(_) =>
        i in h.cells && (match h.cells[i].content
          case None => h.cells[u].content == None
          case Some(c) => c.Plain? && h.cells[u].content == Some(Plain(g(c.res))))
  {
    var h := Run(Empty(), ops);
    CallbackResult(ops, t);
    CallbackResult(ops, u);
    assert Gave(h, t, f, Some(i), r);
    match f(r)
    case Err(e) =>
      assert Gets(h, t, Err(e));
    case Ok(_) =>
      assert ContentWired(h, t, Nested(i));
      if h.cells[i].content.Some? {
        assert ContentWired(h, i, h.cells[i].content.value);
        assert Gets(h, t, h.cells[i].content.value.res);
      }
  }

  // ----- order independence -----

  /** Two heaps with the same cells, callbacks, and contents of root cells. */
  ghost predicate SameProgram<K>(a: Heap<K>, b: Heap<K>)
  {
    && a.cells.Keys == b.cells.Keys
    && forall k :: k in a.cells ==>
         && a.cells[k].def == b.cells[k].def
         && (a.cells[k].def.Root? ==> a.cells[k].content == b.cells[k].content)
  }

  /** A callback whose input came before it in one heap has the same input in the other. */
  lemma SameInput<K>(a: Heap<K>, b: Heap<K>, n: nat)
    requires Inv(a) && Inv(b) && SameProgram(a, b) && n < |a.log| && a.log[n] in a.cells && a.cells[a.log[n]].def.Derived?
    requires forall k :: k in a.cells && Before(a, n, k) ==> b.cells[k].content == a.cells[k].content
    ensures var s := a.cells[a.log[n]].def.src;
      s in a.cells && s in b.cells && Input(a, s).Some? && Input(a, s) == Input(b, s)
  {
    var s := a.cells[a.log[n]].def.src;
    assert CausalAt(a, n);
    assert ContentWired(a, s, a.cells[s].content.value);
    if a.cells[s].content.value.Nested? {
      var i := a.cells[s].content.value.inner;
      assert Before(a, n, i);
      assert ContentWired(a, i, a.cells[i].content.value);
    }
  }

  lemma SameNext<K>(a: Heap<K>, b: Heap<K>, n: nat)
    requires Inv(a) && Inv(b) && SameProgram(a, b) && n < |a.log|
    requires forall k :: k in a.cells && Before(a, n, k) ==> b.cells[k].content == a.cells[k].content
    ensures a.log[n] in a.cells && b.cells[a.log[n]].content == a.cells[a.log[n]].content
  {
    assert a.log[n] in a.log;
    SameInput(a, b, n);
    assert Consistent(a, a.log[n]) && Consistent(b, a.log[n]);
  }

  lemma {:induction false} SameUpTo<K>(a: Heap<K>, b: Heap<K>, n: nat)
    requires Inv(a) && Inv(b) && SameProgram(a, b) && n <= |a.log|
    ensures forall i :: 0 <= i < n ==> a.log[i] in a.cells && b.cells[a.log[i]].content == a.cells[a.log[i]].content
  {
    if n > 0 {
      SameUpTo(a, b, n - 1);
      forall k | k in a.cells && Before(a, n - 1, k)
        ensures b.cells[k].content == a.cells[k].content
      {
        if !a.cells[k].def.Root? {
          var i :| 0 <= i < n - 1 && a.log[..n - 1][i] == k;
          assert a.log[i] == k;
        }
      }
      SameNext(a, b, n - 1);
    }
  }

  /** However it got there, a heap's contents are determined by its callbacks and its root contents. */
  lemma Confluence<K>(a: Heap<K>, b: Heap<K>)
    requires Inv(a) && Inv(b) && SameProgram(a, b)
    ensures forall k :: k in a.cells ==> a.cells[k].content == b.cells[k].content
  {
    SameUpTo(a, b, |a.log|);
    SameUpTo(b, a, |b.log|);
    forall k | k in a.cells
      ensures a.cells[k].content == b.cells[k].content
    {
      if a.cells[k].def.Derived? {
        assert k in a.log <==> a.cells[k].content.Some?;
        assert k in b.log <==> b.cells[k].content.Some?;
      }
    }
  }

  /** What a run does to a root's cell: its first value, or the exception of its destruction. */
  ghost function RootOutcome<K>(ops: seq<Op<K>>, k: K): Option<Content<K>>
    decreases |ops|
  {
    if ops == [] then None
    else if ops[0].Fulfil? && ops[0].k == k then Some(ops[0].c)
    else if ops[0] == Destroy(k) then Some(Plain(Err(Broken)))
    else RootOutcome(ops[1..], k)
  }

  ghost function Made<K>(op: Op<K>): set<K>
  {
    match op
    case NewPromise(k, _) => {k}
    case Next(_, _, _, t) => {t}
    case _ => {}
  }

  ghost function AllMade<K>(ops: seq<Op<K>>): set<K>
    decreases |ops|
  {
    if ops == [] then {} else Made(ops[0]) + AllMade(ops[1..])
  }

  /** One step makes the cells it names and sets the root it fulfils or destroys; the rest stays. */
  ghost predicate StepShape<K>(h: Heap<K>, op: Op<K>, r: Heap<K>)
  {
    && r.cells.Keys == h.cells.Keys + Made(op)
    && (forall k :: k in h.cells ==> r.cells[k].def == h.cells[k].def && r.cells[k].nested == h.cells[k].nested)
    && (forall k :: k in h.cells && h.cells[k].content.Some? ==> r.cells[k].content == h.cells[k].content)
    && (forall k :: k in Made(op) ==> k !in h.cells && r.cells[k].def == DefOf(op))
    && (forall k :: k in r.cells && r.cells[k].def.Root? && (k !in h.cells || h.cells[k].content == None) ==>
          r.cells[k].content == Effect(op, k))
  }

  ghost function DefOf<K>(op: Op<K>): Def<K>
  {
    if op.Next? then Derived(op.k, op.f, op.gives) else Root
  }

  ghost function Effect<K>(op: Op<K>, k: K): Option<Content<K>>
  {
    if op.Fulfil? && op.k == k then Some(op.c)
    else if op == Destroy(k) then Some(Plain(Err(Broken)))
    else None
  }

  lemma NewPromiseShape<K>(h: Heap<K>, k: K, nested: bool)
    requires Inv(h) && Legal(h, NewPromise(k, nested))
    ensures StepShape(h, NewPromise(k, nested), Apply(h, NewPromise(k, nested)))
  {
  }

  lemma NextShape<K>(h: Heap<K>, k: K, f: Fn, gives: Option<K>, t: K)
    requires Inv(h) && Legal(h, Next(k, f, gives, t))
    ensures StepShape(h, Next(k, f, gives, t), Apply(h, Next(k, f, gives, t)))
  {
    NextKeeps(h, k, f, gives, t);
    AttachChanges(h, k, f, gives, t);
    var h1 := Forward(Attach(h, k, f, gives, t), k);
    ContinueShape(h, k, Callback(f, gives, t), h1, Continue(h1, k, |Unresolved(h1)| + 1));
  }

  /** The same cells with the same contents. */
  ghost predicate SameContents<K>(h: Heap<K>, r: Heap<K>)
  {
    && r.cells.Keys == h.cells.Keys
    && forall j :: j in h.cells ==>
         r.cells[j].def == h.cells[j].def && r.cells[j].nested == h.cells[j].nested && r.cells[j].content == h.cells[j].content
  }

  lemma MovedContents<K>(h: Heap<K>, i: K, k: K)
    requires i in h.cells
    ensures SameContents(h, Move(h, i, k))
  {
  }

  lemma FulfilShape<K>(h: Heap<K>, k: K, c: Content<K>)
    requires Inv(h) && Legal(h, Fulfil(k, c))
    ensures StepShape(h, Fulfil(k, c), Apply(h, Fulfil(k, c)))
  {
    FulfilReady(h, k, c);
    if c.Nested? {
      MovedContents(h, c.inner, k);
      ResolveShape(h, Move(h, c.inner, k), k, c, Resolve(Move(h, c.inner, k), k, c));
    } else {
      ResolveShape(h, h, k, c, Resolve(h, k, c));
    }
  }

  lemma DestroyShape<K>(h: Heap<K>, k: K)
    requires Inv(h) && Legal(h, Destroy(k))
    ensures StepShape(h, Destroy(k), Apply(h, Destroy(k)))
  {
    if h.cells[k].content == None {
      FulfilReady(h, k, Plain(Err(Broken)));
      ResolveShape(h, h, k, Plain(Err(Broken)), Resolve(h, k, Plain(Err(Broken))));
    }
  }

  lemma StepShapes<K>(h: Heap<K>, op: Op<K>)
    requires Inv(h) && Legal(h, op)
    ensures StepShape(h, op, Apply(h, op))
  {
    match op
    case NewPromise(k, nested) => NewPromiseShape(h, k, nested);
    case Next(k, f, gives, t) => NextShape(h, k, f, gives, t);
    case Fulfil(k, c) => FulfilShape(h, k, c);
    case Destroy(k) => DestroyShape(h, k);
  }

  lemma ContinueShape<K>(h: Heap<K>, k: K, cb: Callback<K>, h1: Heap<K>, r: Heap<K>)
    requires k in h.cells && Attached(h, k, cb, h1) && SameWiring(h1, r) && SameRootsBut(h1, r, None)
    ensures StepShape(h, Next(k, cb.f, cb.gives, cb.target), r)
  {
    AttachedShape(h, k, cb, h1);
  }

  lemma AttachedShape<K>(h: Heap<K>, k: K, cb: Callback<K>, r: Heap<K>)
    requires k in h.cells && Attached(h, k, cb, r)
    ensures StepShape(h, Next(k, cb.f, cb.gives, cb.target), r)
    ensures forall j :: j in h.cells ==> r.cells[j].content == h.cells[j].content
    ensures r.cells[cb.target].def.Derived?
  {
  }

  lemma ResolveShape<K>(h: Heap<K>, h1: Heap<K>, k: K, c: Content<K>, r: Heap<K>)
    requires k in h.cells && h.cells[k].def.Root? && SameContents(h, h1)
    requires SameWiring(h1, r) && SameRootsBut(h1, r, Some(k)) && r.cells[k].content == Some(c)
    ensures StepShape(h, Fulfil(k, c), r)
    ensures c == Plain(Err(Broken)) ==> StepShape(h, Destroy(k), r)
  {
  }

  /** The heaps a legal run goes through. */
  ghost predicate Trace<K>(hs: seq<Heap<K>>, ops: seq<Op<K>>)
  {
    && |hs| == |ops| + 1
    && forall i :: 0 <= i < |ops| ==> Legal(hs[i], ops[i]) && StepShape(hs[i], ops[i], hs[i + 1])
  }

  lemma {:induction false} TraceOf<K>(h: Heap<K>, ops: seq<Op<K>>) returns (hs: seq<Heap<K>>)
    requires Inv(h) && LegalRun(h, ops)
    ensures Trace(hs, ops) && hs[0] == h && hs[|ops|] == Run(h, ops)
    decreases |ops|
  {
    if ops == [] {
      hs := [h];
    } else {
      StepShapes(h, ops[0]);
      var rest := TraceOf(Apply(h, ops[0]), ops[1..]);
      hs := [h] + rest;
      forall i | 0 <= i < |ops|
        ensures Legal(hs[i], ops[i]) && StepShape(hs[i], ops[i], hs[i + 1])
      {
        if i > 0 {
          assert hs[i] == rest[i - 1] && hs[i + 1] == rest[i] && ops[i] == ops[1..][i - 1];
        }
      }
    }
  }

  lemma TraceTail<K>(hs: seq<Heap<K>>, ops: seq<Op<K>>)
    requires Trace(hs, ops) && ops != []
    ensures Trace(hs[1..], ops[1..]) && Legal(hs[0], ops[0]) && StepShape(hs[0], ops[0], hs[1])
  {
    assert StepShape(hs[0], ops[0], hs[0 + 1]);
    forall i | 0 <= i < |ops| - 1
      ensures Legal(hs[1..][i], ops[1..][i]) && StepShape(hs[1..][i], ops[1..][i], hs[1..][i + 1])
    {
      assert StepShape(hs[i + 1], ops[i + 1], hs[(i + 1) + 1]);
    }
  }

  /** Every cell the steps make is there, with the definition its step gives it. */
  ghost predicate MadeBy<K>(ops: seq<Op<K>>, r: Heap<K>)
  {
    forall i, k :: 0 <= i < |ops| && k in Made(ops[i]) ==> k in r.cells && r.cells[k].def == DefOf(ops[i])
  }

  /** Every root holds what it held in h, or else what the steps did to it. */
  ghost predicate RootsBy<K>(h: Heap<K>, ops: seq<Op<K>>, r: Heap<K>)
  {
    forall k :: k in r.cells && r.cells[k].def.Root? ==>
      r.cells[k].content == if k in h.cells && h.cells[k].content.Some? then h.cells[k].content else RootOutcome(ops, k)
  }

  /** The cells, definitions and root contents of r follow from the steps that led there from h. */
  ghost predicate Shaped<K>(h: Heap<K>, ops: seq<Op<K>>, r: Heap<K>)
  {
    && r.cells.Keys == h.cells.Keys + AllMade(ops)
    && (forall k :: k in h.cells ==> r.cells[k].def == h.cells[k].def)
    && MadeBy(ops, r) && RootsBy(h, ops, r)
    && (forall k :: k in h.cells && h.cells[k].content.Some? ==> r.cells[k].content == h.cells[k].content)
  }

  lemma ShapedRoot<K>(h: Heap<K>, h1: Heap<K>, r: Heap<K>, op: Op<K>, rest: seq<Op<K>>, k: K)
    requires Legal(h, op) && StepShape(h, op, h1) && Shaped(h1, rest, r) && k in r.cells && r.cells[k].def.Root?
    ensures r.cells[k].content
         == if k in h.cells && h.cells[k].content.Some? then h.cells[k].content else RootOutcome([op] + rest, k)
  {
    assert ([op] + rest)[1..] == rest;
    assert RootOutcome([op] + rest, k) == if Effect(op, k).Some? then Effect(op, k) else RootOutcome(rest, k);
  }

  lemma ShapedRoots<K>(h: Heap<K>, h1: Heap<K>, r: Heap<K>, op: Op<K>, rest: seq<Op<K>>)
    requires Legal(h, op) && StepShape(h, op, h1) && Shaped(h1, rest, r)
    ensures RootsBy(h, [op] + rest, r)
  {
    forall k | k in r.cells && r.cells[k].def.Root?
      ensures r.cells[k].content
           == if k in h.cells && h.cells[k].content.Some? then h.cells[k].content else RootOutcome([op] + rest, k)
    {
      ShapedRoot(h, h1, r, op, rest, k);
    }
  }

  lemma MadeFirst<K>(h: Heap<K>, h1: Heap<K>, r: Heap<K>, op: Op<K>, k: K)
    requires StepShape(h, op, h1) && h1.cells.Keys <= r.cells.Keys && k in Made(op)
    requires forall j :: j in h1.cells ==> r.cells[j].def == h1.cells[j].def
    ensures k in r.cells && r.cells[k].def == DefOf(op)
  {
    assert k in h1.cells;
  }

  lemma ShapedMade<K>(h: Heap<K>, h1: Heap<K>, r: Heap<K>, op: Op<K>, rest: seq<Op<K>>)
    requires StepShape(h, op, h1) && h1.cells.Keys <= r.cells.Keys && MadeBy(rest, r)
    requires forall j :: j in h1.cells ==> r.cells[j].def == h1.cells[j].def
    ensures MadeBy([op] + rest, r)
  {
    var ops := [op] + rest;
    forall i, k | 0 <= i < |ops| && k in Made(ops[i])
      ensures k in r.cells && r.cells[k].def == DefOf(ops[i])
    {
      if i > 0 {
        assert ops[i] == rest[i - 1];
      } else {
        MadeFirst(h, h1, r, op, k);
      }
    }
  }

  lemma ShapedOld<K>(h: Heap<K>, h1: Heap<K>, r: Heap<K>, op: Op<K>, rest: seq<Op<K>>)
    requires StepShape(h, op, h1) && Shaped(h1, rest, r)
    ensures r.cells.Keys == h.cells.Keys + AllMade([op] + rest)
    ensures forall k :: k in h.cells ==> r.cells[k].def == h.cells[k].def
    ensures forall k :: k in h.cells && h.cells[k].content.Some? ==> r.cells[k].content == h.cells[k].content
  {
    assert ([op] + rest)[1..] == rest;
  }

  lemma ShapedStep<K>(h: Heap<K>, h1: Heap<K>, r: Heap<K>, op: Op<K>, rest: seq<Op<K>>)
    requires Legal(h, op) && StepShape(h, op, h1) && Shaped(h1, rest, r)
    ensures Shaped(h, [op] + rest, r)
  {
    ShapedOld(h, h1, r, op, rest);
    ShapedMade(h, h1, r, op, rest);
    ShapedRoots(h, h1, r, op, rest);
  }

  lemma {:induction false} TraceShaped<K>(hs: seq<Heap<K>>, ops: seq<Op<K>>)
    requires Trace(hs, ops)
    ensures Shaped(hs[0], ops, hs[|ops|])
    decreases |ops|
  {
    if ops != [] {
      TraceTail(hs, ops);
      TraceShaped(hs[1..], ops[1..]);
      ShapedStep(hs[0], hs[1], hs[|ops|], ops[0], ops[1..]);
      assert ops == [ops[0]] + ops[1..];
    }
  }

  lemma {:induction false} NoSecondFulfil<K>(hs: seq<Heap<K>>, ops: seq<Op<K>>, k: K, i: nat)
    requires Trace(hs, ops) && k in hs[0].cells && hs[0].cells[k].content.Some? && i < |ops|
    ensures !(ops[i].Fulfil? && ops[i].k == k)
    decreases |ops|
  {
    TraceTail(hs, ops);
    if i > 0 {
      NoSecondFulfil(hs[1..], ops[1..], k, i - 1);
    }
  }

  /** In a legal run a fulfilled promise keeps that value, whenever it is destroyed. */
  lemma {:induction false} FulfilWins<K>(hs: seq<Heap<K>>, ops: seq<Op<K>>, i: nat)
    requires Trace(hs, ops) && i < |ops| && ops[i].Fulfil?
    ensures RootOutcome(ops, ops[i].k) == Some(ops[i].c)
    decreases |ops|
  {
    if i > 0 {
      var k := ops[i].k;
      TraceTail(hs, ops);
      if Effect(ops[0], k).Some? {
        assert k in hs[1].cells && hs[1].cells[k].content.Some?;
        NoSecondFulfil(hs[1..], ops[1..], k, i - 1);
        assert false;
      } else {
        FulfilWins(hs[1..], ops[1..], i - 1);
      }
    }
  }

  lemma {:induction false} RootOutcomeElse<K>(ops: seq<Op<K>>, k: K)
    requires forall i :: 0 <= i < |ops| ==> !(ops[i].Fulfil? && ops[i].k == k)
    ensures RootOutcome(ops, k) == if Destroy(k) in ops then Some(Plain(Err(Broken))) else None
    decreases |ops|
  {
    if ops != [] {
      forall i | 0 <= i < |ops| - 1
        ensures !(ops[1..][i].Fulfil? && ops[1..][i].k == k)
      {
        assert ops[1..][i] == ops[i + 1];
      }
      RootOutcomeElse(ops[1..], k);
    }
  }

  lemma {:induction false} AllMadeBy<K>(ops: seq<Op<K>>, k: K)
    ensures k in AllMade(ops) <==> exists i :: 0 <= i < |ops| && k in Made(ops[i])
    decreases |ops|
  {
    if ops != [] {
      AllMadeBy(ops[1..], k);
      if i :| 0 <= i < |ops| && k in Made(ops[i]) {
        assert i > 0 ==> ops[i] == ops[1..][i - 1];
      }
      if k in AllMade(ops[1..]) {
        var i :| 0 <= i < |ops| - 1 && k in Made(ops[1..][i]);
        assert ops[i + 1] == ops[1..][i];
      }
    }
  }

  lemma Permuted<K>(a: seq<Op<K>>, b: seq<Op<K>>, i: nat) returns (j: nat)
    requires multiset(a) == multiset(b) && i < |a|
    ensures j < |b| && b[j] == a[i]
  {
    assert a[i] in multiset(a);
    j :| 0 <= j < |b| && b[j] == a[i];
  }

  lemma SameRootOutcome<K>(ha: seq<Heap<K>>, a: seq<Op<K>>, hb: seq<Heap<K>>, b: seq<Op<K>>, k: K)
    requires Trace(ha, a) && Trace(hb, b) && multiset(a) == multiset(b)
    ensures RootOutcome(a, k) == RootOutcome(b, k)
  {
    if i :| 0 <= i < |a| && a[i].Fulfil? && a[i].k == k {
      var j := Permuted(a, b, i);
      FulfilWins(ha, a, i);
      FulfilWins(hb, b, j);
    } else {
      forall j | 0 <= j < |b|
        ensures !(b[j].Fulfil? && b[j].k == k)
      {
        var i := Permuted(b, a, j);
      }
      RootOutcomeElse(a, k);
      RootOutcomeElse(b, k);
      assert Destroy(k) in multiset(a) <==> Destroy(k) in multiset(b);
    }
  }

  lemma MadeTogether<K>(a: seq<Op<K>>, b: seq<Op<K>>, ra: Heap<K>, rb: Heap<K>, k: K)
    requires Shaped(Empty(), a, ra) && Shaped(Empty(), b, rb) && multiset(a) == multiset(b)
    requires k in ra.cells
    ensures k in rb.cells && rb.cells[k].def == ra.cells[k].def
  {
    AllMadeBy(a, k);
    var i :| 0 <= i < |a| && k in Made(a[i]);
    var j := Permuted(a, b, i);
    assert k in Made(b[j]);
  }

  /**
   * Order independence: two legal runs of the same steps, in whatever order promises
   * are made, fulfilled or destroyed and callbacks attached, end with the same result in
   * every cell.
   */
  lemma OrderIndependence<K>(a: seq<Op<K>>, b: seq<Op<K>>)
    requires LegalRun(Empty(), a) && LegalRun(Empty(), b) && multiset(a) == multiset(b)
    ensures var ra, rb := Run(Empty(), a), Run(Empty(), b);
      ra.cells.Keys == rb.cells.Keys && forall k :: k in ra.cells ==> ra.cells[k].content == rb.cells[k].content
  {
    var ha := TraceOf(Empty(), a);
    var hb := TraceOf(Empty(), b);
    var ra, rb := ha[|a|], hb[|b|];
    TraceShaped(ha, a);
    TraceShaped(hb, b);
    SameEnds(ha, a, hb, b);
    Confluence(ra, rb);
  }

  lemma SameEnds<K>(ha: seq<Heap<K>>, a: seq<Op<K>>, hb: seq<Heap<K>>, b: seq<Op<K>>)
    requires Trace(ha, a) && Trace(hb, b) && multiset(a) == multiset(b)
    requires Shaped(Empty(), a, ha[|a|]) && Shaped(Empty(), b, hb[|b|])
    ensures SameProgram(ha[|a|], hb[|b|])
  {
    var ra, rb := ha[|a|], hb[|b|];
    forall k | k in ra.cells
      ensures k in rb.cells && rb.cells[k].def == ra.cells[k].def
    {
      MadeTogether(a, b, ra, rb, k);
    }
    forall k | k in rb.cells
      ensures k in ra.cells
    {
      MadeTogether(b, a, rb, ra, k);
    }
    forall k | k in ra.cells && ra.cells[k].def.Root?
      ensures ra.cells[k].content == rb.cells[k].content
    {
      SameRootOutcome(ha, a, hb, b, k);
    }
  }

  // ----- a chain, its head resolved at any point -----

  /** Attach the callbacks fs one after another, the first to cell i, making cells i + 1, i + 2, ... */
  function Nexts(i: nat, fs: seq<Fn>): seq<Op<nat>>
    decreases |fs|
  {
    if fs == [] then [] else [Next(i, fs[0], None, i + 1)] + Nexts(i + 1, fs[1..])
  }

  function From(i: nat, n: nat): seq<nat>
  {
    seq(n, j requires 0 <= j < n => i + j)
  }

  /** Exactly the cells 0 to last exist, and last is free. */
  ghost predicate Upto(h: Heap<nat>, last: nat)
  {
    Inv(h) && (forall k: nat :: k in h.cells <==> k <= last) && Free(h, last)
  }

  lemma RunFirst<K>(h: Heap<K>, op: Op<K>, rest: seq<Op<K>>)
    requires Inv(h) && Legal(h, op) && LegalRun(Apply(h, op), rest)
    ensures LegalRun(h, [op] + rest) && Run(h, [op] + rest) == Run(Apply(h, op), rest)
  {
    assert ([op] + rest)[1..] == rest;
  }

  ghost predicate Steps<K>(h: Heap<K>, op: Op<K>, r: Heap<K>)
  {
    Inv(h) && Legal(h, op) && Apply(h, op) == r
  }

  /** The heaps a run goes through, step by step. */
  ghost predicate Path<K>(hs: seq<Heap<K>>, ops: seq<Op<K>>)
  {
    |hs| == |ops| + 1 && forall i :: 0 <= i < |ops| ==> Steps(hs[i], ops[i], hs[i + 1])
  }

  lemma {:induction false} PathRuns<K>(hs: seq<Heap<K>>, ops: seq<Op<K>>)
    requires Path(hs, ops) && Inv(hs[0])
    ensures LegalRun(hs[0], ops) && Run(hs[0], ops) == hs[|ops|]
    decreases |ops|
  {
    if ops != [] {
      assert Steps(hs[0], ops[0], hs[1]);
      assert Path(hs[1..], ops[1..]) by {
        forall i | 0 <= i < |ops| - 1
          ensures Steps(hs[1..][i], ops[1..][i], hs[1..][i + 1])
        {
          assert Steps(hs[i + 1], ops[i + 1], hs[i + 2]);
        }
      }
      PathRuns(hs[1..], ops[1..]);
    }
  }

  lemma {:induction false} RunPath<K>(h: Heap<K>, ops: seq<Op<K>>) returns (hs: seq<Heap<K>>)
    requires Inv(h) && LegalRun(h, ops)
    ensures Path(hs, ops) && hs[0] == h && hs[|ops|] == Run(h, ops)
    decreases |ops|
  {
    if ops == [] {
      hs := [h];
    } else {
      var rest := RunPath(Apply(h, ops[0]), ops[1..]);
      hs := [h] + rest;
      assert Steps(h, ops[0], rest[0]);
      forall i | 0 <= i < |ops|
        ensures Steps(hs[i], ops[i], hs[i + 1])
      {
        if i > 0 {
          assert Steps(rest[i - 1], ops[1..][i - 1], rest[i]);
        }
      }
    }
  }

  lemma PathConcatAt<K>(hs: seq<Heap<K>>, a: seq<Op<K>>, gs: seq<Heap<K>>, b: seq<Op<K>>, i: nat)
    requires Path(hs, a) && Path(gs, b) && hs[|a|] == gs[0] && i < |a| + |b|
    ensures Steps((hs[..|a|] + gs)[i], (a + b)[i], (hs[..|a|] + gs)[i + 1])
  {
    var ks, ops := hs[..|a|] + gs, a + b;
    if i < |a| {
      assert Steps(hs[i], a[i], hs[i + 1]);
      assert ops[i] == a[i] && ks[i] == hs[i] && ks[i + 1] == hs[i + 1];
    } else {
      assert Steps(gs[i - |a|], b[i - |a|], gs[i - |a| + 1]);
      assert ops[i] == b[i - |a|] && ks[i] == gs[i - |a|] && ks[i + 1] == gs[i - |a| + 1];
    }
  }

  lemma PathConcat<K>(hs: seq<Heap<K>>, a: seq<Op<K>>, gs: seq<Heap<K>>, b: seq<Op<K>>)
    requires Path(hs, a) && Path(gs, b) && hs[|a|] == gs[0]
    ensures Path(hs[..|a|] + gs, a + b)
  {
    forall i | 0 <= i < |a + b|
      ensures Steps((hs[..|a|] + gs)[i], (a + b)[i], (hs[..|a|] + gs)[i + 1])
    {
      PathConcatAt(hs, a, gs, b, i);
    }
  }

  lemma RunConcat<K>(h: Heap<K>, a: seq<Op<K>>, b: seq<Op<K>>)
    requires Inv(h) && LegalRun(h, a) && LegalRun(Run(h, a), b)
    ensures LegalRun(h, a + b) && Run(h, a + b) == Run(Run(h, a), b)
  {
    var hs := RunPath(h, a);
    var gs := RunPath(Run(h, a), b);
    PathConcat(hs, a, gs, b);
    var ks := hs[..|a|] + gs;
    assert ks[0] == h;
    PathRuns(ks, a + b);
  }

  /** What attaching a callback to the last cell leaves. */
  lemma NextLast(h: Heap<nat>, i: nat, f: Fn)
    requires Upto(h, i)
    ensures Legal(h, Next(i, f, None, i + 1))
    ensures var r := Apply(h, Next(i, f, None, i + 1));
      Free(r, i + 1) && r.cells[i].callback == Some(Callback(f, None, i + 1))
  {
    NextKeeps(h, i, f, None, i + 1);
    AttachChanges(h, i, f, None, i + 1);
  }

  lemma NextUpto(h: Heap<nat>, i: nat, f: Fn)
    requires Upto(h, i)
    ensures Legal(h, Next(i, f, None, i + 1))
    ensures var r := Apply(h, Next(i, f, None, i + 1));
      Upto(r, i + 1) && Linked(r, i, f, i + 1) && StepShape(h, Next(i, f, None, i + 1), r)
  {
    NextLast(h, i, f);
    NextShape(h, i, f, None, i + 1);
  }

  /** The links of a chain from cell i. */
  ghost predicate LinkedFrom(r: Heap<nat>, i: nat, fs: seq<Fn>)
  {
    forall j :: 0 <= j < |fs| ==> Linked(r, i + j, fs[j], i + j + 1)
  }

  /** r has, on top of h, the chain of callbacks fs from cell i; the head's own content is as it was. */
  ghost predicate ChainBuilt(h: Heap<nat>, i: nat, fs: seq<Fn>, r: Heap<nat>)
  {
    && 0 in h.cells && Upto(r, i + |fs|)
    && (forall k :: k in h.cells ==> k in r.cells && r.cells[k].def == h.cells[k].def && r.cells[k].nested == h.cells[k].nested)
    && r.cells[0].content == h.cells[0].content
    && LinkedFrom(r, i, fs)
  }

  lemma LinksGrow(r: Heap<nat>, i: nat, f: Fn, rest: seq<Fn>)
    requires Linked(r, i, f, i + 1) && LinkedFrom(r, i + 1, rest)
    ensures LinkedFrom(r, i, [f] + rest)
  {
    var fs := [f] + rest;
    forall j | 0 <= j < |fs|
      ensures Linked(r, i + j, fs[j], i + j + 1)
    {
      if j > 0 {
        assert Linked(r, (i + 1) + (j - 1), rest[j - 1], (i + 1) + (j - 1) + 1);
      }
    }
  }

  lemma ChainGrows(h: Heap<nat>, i: nat, f: Fn, h1: Heap<nat>, rest: seq<Fn>, r: Heap<nat>)
    requires Upto(h, i) && h.cells[0].def.Root? && Linked(h1, i, f, i + 1) && StepShape(h, Next(i, f, None, i + 1), h1)
    requires ChainBuilt(h1, i + 1, rest, r)
    ensures ChainBuilt(h, i, [f] + rest, r)
  {
    LinksGrow(r, i, f, rest);
  }

  lemma NextsFirst(h: Heap<nat>, i: nat, f: Fn, rest: seq<Fn>)
    requires Upto(h, i) && h.cells[0].def.Root?
    requires var h1 := (NextUpto(h, i, f); Apply(h, Next(i, f, None, i + 1)));
      LegalRun(h1, Nexts(i + 1, rest)) && ChainBuilt(h1, i + 1, rest, Run(h1, Nexts(i + 1, rest)))
    ensures LegalRun(h, Nexts(i, [f] + rest)) && ChainBuilt(h, i, [f] + rest, Run(h, Nexts(i, [f] + rest)))
  {
    var op, ops := Next(i, f, None, i + 1), Nexts(i + 1, rest);
    NextUpto(h, i, f);
    assert ([f] + rest)[1..] == rest;
    assert Nexts(i, [f] + rest) == [op] + ops;
    RunFirst(h, op, ops);
    ChainGrows(h, i, f, Apply(h, op), rest, Run(Apply(h, op), ops));
  }

  lemma NextHead(h: Heap<nat>, i: nat, f: Fn)
    requires Upto(h, i) && h.cells[0].def.Root?
    ensures Legal(h, Next(i, f, None, i + 1))
    ensures var r := Apply(h, Next(i, f, None, i + 1)); Upto(r, i + 1) && r.cells[0].def.Root?
  {
    NextUpto(h, i, f);
  }

  lemma {:induction false} NextsLegal(h: Heap<nat>, i: nat, fs: seq<Fn>)
    requires Upto(h, i) && h.cells[0].def.Root?
    ensures LegalRun(h, Nexts(i, fs)) && ChainBuilt(h, i, fs, Run(h, Nexts(i, fs)))
    decreases |fs|
  {
    if fs != [] {
      var f, rest := fs[0], fs[1..];
      assert fs == [f] + rest;
      NextHead(h, i, f);
      NextsLegal(Apply(h, Next(i, f, None, i + 1)), i + 1, rest);
      NextsFirst(h, i, f, rest);
    }
  }

  const FIRST: Op<nat> := NewPromise(0, false)

  function HeadOp(v: Res): Op<nat>
  {
    if v == Err(Broken) then Destroy(0) else Fulfil(0, Plain(v))
  }

  /** Make a promise, attach the first j callbacks, resolve the head, attach the others. */
  function ChainRun(fs: seq<Fn>, j: nat, v: Res): seq<Op<nat>>
    requires j <= |fs|
  {
    [FIRST] + Nexts(0, fs[..j]) + [HeadOp(v)] + Nexts(j, fs[j..])
  }

  lemma HeadShape(h: Heap<nat>, v: Res)
    requires Inv(h) && 0 in h.cells && h.cells[0].def.Root? && h.cells[0].content == None && !h.cells[0].nested
    ensures var op := HeadOp(v);
      Legal(h, op) && StepShape(h, op, Apply(h, op)) && SameWiring(h, Apply(h, op))
  {
    FulfilReady(h, 0, Plain(v));
    StepShapes(h, HeadOp(v));
  }

  lemma HeadUpto(h: Heap<nat>, j: nat, v: Res)
    requires Upto(h, j) && h.cells[0].def.Root? && h.cells[0].content == None && !h.cells[0].nested
    ensures var op := HeadOp(v);
      && Legal(h, op) && StepShape(h, op, Apply(h, op)) && Upto(Apply(h, op), j)
      && Apply(h, op).cells[0].content == Some(Plain(v))
  {
    HeadShape(h, v);
  }

  lemma {:induction false} BuiltIsChain(h: Heap<nat>, i: nat, fs: seq<Fn>)
    requires i in h.cells && LinkedFrom(h, i, fs)
    ensures IsChain(h, From(i, |fs| + 1), fs)
    decreases |fs|
  {
    if fs != [] {
      assert Linked(h, i + 0, fs[0], i + 0 + 1);
      forall j | 0 <= j < |fs| - 1
        ensures Linked(h, (i + 1) + j, fs[1..][j], (i + 1) + j + 1)
      {
        assert Linked(h, i + (j + 1), fs[j + 1], i + (j + 1) + 1);
      }
      BuiltIsChain(h, i + 1, fs[1..]);
      assert From(i, |fs| + 1)[1..] == From(i + 1, |fs|);
    }
  }

  /** A link stays when cells keep their definitions. */
  lemma LinkStays(h: Heap<nat>, r: Heap<nat>, i: nat, f: Fn)
    requires Linked(h, i, f, i + 1)
    requires forall k :: k in h.cells ==> k in r.cells && r.cells[k].def == h.cells[k].def && r.cells[k].nested == h.cells[k].nested
    ensures Linked(r, i, f, i + 1)
  {
  }

  /** The two parts of the chain are one chain at the end. */
  lemma Joined(h0: Heap<nat>, h1: Heap<nat>, h2: Heap<nat>, h3: Heap<nat>, fs: seq<Fn>, j: nat, op: Op<nat>)
    requires j <= |fs|
    requires ChainBuilt(h0, 0, fs[..j], h1) && StepShape(h1, op, h2) && ChainBuilt(h2, j, fs[j..], h3)
    ensures 0 in h3.cells && LinkedFrom(h3, 0, fs)
  {
    assert forall k :: k in h1.cells ==>
      k in h3.cells && h3.cells[k].def == h1.cells[k].def && h3.cells[k].nested == h1.cells[k].nested;
    forall i | 0 <= i < |fs|
      ensures Linked(h3, 0 + i, fs[i], 0 + i + 1)
    {
      if i < j {
        assert Linked(h1, 0 + i, fs[..j][i], 0 + i + 1);
        LinkStays(h1, h3, i, fs[i]);
      } else {
        assert Linked(h3, j + (i - j), fs[j..][i - j], j + (i - j) + 1);
      }
    }
  }

  lemma FirstPromise()
    ensures Legal(Empty<nat>(), FIRST)
    ensures var h := Apply(Empty<nat>(), FIRST);
      Upto(h, 0) && h.cells[0].def.Root? && h.cells[0].content == None && !h.cells[0].nested
  {
    NewPromiseKeeps(Empty<nat>(), 0, false);
    var h: Heap<nat> := Heap(map[0 := Cell(None, None, Root, None, false)], []);
    assert Apply(Empty<nat>(), FIRST) == h;
    assert Inv(h) && Free(h, 0);
  }

  /** The heaps between the phases of such a run. */
  lemma ChainPhases(fs: seq<Fn>, j: nat, v: Res) returns (h1: Heap<nat>, h2: Heap<nat>, h3: Heap<nat>)
    requires j <= |fs|
    ensures var h0 := Apply(Empty<nat>(), FIRST);
      && Legal(Empty<nat>(), FIRST)
      && LegalRun(h0, Nexts(0, fs[..j])) && Run(h0, Nexts(0, fs[..j])) == h1 && ChainBuilt(h0, 0, fs[..j], h1)
    ensures var op := HeadOp(v);
      Inv(h1) && Legal(h1, op) && Apply(h1, op) == h2 && StepShape(h1, op, h2)
    ensures Inv(h2) && LegalRun(h2, Nexts(j, fs[j..])) && Run(h2, Nexts(j, fs[j..])) == h3 && ChainBuilt(h2, j, fs[j..], h3)
    ensures h2.cells[0].content == Some(Plain(v))
  {
    FirstPromise();
    var h0 := Apply(Empty<nat>(), FIRST);
    NextsLegal(h0, 0, fs[..j]);
    h1 := Run(h0, Nexts(0, fs[..j]));
    HeadUpto(h1, j, v);
    h2 := Apply(h1, HeadOp(v));
    NextsLegal(h2, j, fs[j..]);
    h3 := Run(h2, Nexts(j, fs[j..]));
  }

  lemma RunOne<K>(h: Heap<K>, op: Op<K>)
    requires Inv(h) && Legal(h, op)
    ensures LegalRun(h, [op]) && Run(h, [op]) == Apply(h, op)
  {
    var ops := [op];
    assert ops[1..] == [];
  }

  /**
   * A chain of n callbacks whose head is resolved, or whose promise is destroyed, at any
   * point among the attachments: such a run is legal, and its end holds the composition
   * of the callbacks over the head's value, exception or broken promise.
   */
  lemma ChainWhenever(fs: seq<Fn>, j: nat, v: Res)
    requires j <= |fs| && fs != []
    ensures LegalRun<nat>(Empty<nat>(), ChainRun(fs, j, v))
    ensures var h := Run<nat>(Empty<nat>(), ChainRun(fs, j, v));
      |fs| in h.cells && h.cells[|fs|].content == Some(Plain(Compose(fs, v)))
  {
    var h1, h2, h3 := ChainPhases(fs, j, v);
    var h0 := Apply(Empty<nat>(), FIRST);
    ChainRuns(fs, j, v, h0, h1, h2, h3);
    Joined(h0, h1, h2, h3, fs, j, HeadOp(v));
    ChainEnd(h2, h3, fs, j, v);
  }

  /** Destroying the head promise at any point breaks the whole chain of callbacks that pass exceptions on. */
  lemma BrokenWhenever(fs: seq<Fn>, j: nat)
    requires j <= |fs| && fs != []
    requires forall i, e :: 0 <= i < |fs| ==> fs[i](Err(e)) == Err(e)
    ensures LegalRun<nat>(Empty<nat>(), ChainRun(fs, j, Err(Broken))) && Destroy(0) in ChainRun(fs, j, Err(Broken))
    ensures var h := Run<nat>(Empty<nat>(), ChainRun(fs, j, Err(Broken)));
      |fs| in h.cells && h.cells[|fs|].content == Some(Plain(Err(Broken)))
  {
    ChainWhenever(fs, j, Err(Broken));
    BrokenChain(fs);
  }

  lemma ChainRuns(fs: seq<Fn>, j: nat, v: Res, h0: Heap<nat>, h1: Heap<nat>, h2: Heap<nat>, h3: Heap<nat>)
    requires j <= |fs|
    requires Legal(Empty<nat>(), FIRST) && h0 == Apply(Empty<nat>(), FIRST)
    requires LegalRun(h0, Nexts(0, fs[..j])) && Run(h0, Nexts(0, fs[..j])) == h1
    requires Inv(h1) && Legal(h1, HeadOp(v)) && Apply(h1, HeadOp(v)) == h2
    requires LegalRun(h2, Nexts(j, fs[j..])) && Run(h2, Nexts(j, fs[j..])) == h3
    ensures LegalRun<nat>(Empty<nat>(), ChainRun(fs, j, v)) && Run<nat>(Empty<nat>(), ChainRun(fs, j, v)) == h3
  {
    RunOne(Empty<nat>(), FIRST);
    RunOne(h1, HeadOp(v));
    RunConcat(Empty<nat>(), [FIRST], Nexts(0, fs[..j]));
    RunConcat(Empty<nat>(), [FIRST] + Nexts(0, fs[..j]), [HeadOp(v)]);
    RunConcat(Empty<nat>(), [FIRST] + Nexts(0, fs[..j]) + [HeadOp(v)], Nexts(j, fs[j..]));
  }

  lemma ChainEnd(h2: Heap<nat>, h3: Heap<nat>, fs: seq<Fn>, j: nat, v: Res)
    requires j <= |fs| && fs != [] && ChainBuilt(h2, j, fs[j..], h3) && h2.cells[0].content == Some(Plain(v))
    requires 0 in h3.cells && LinkedFrom(h3, 0, fs)
    ensures |fs| in h3.cells && h3.cells[|fs|].content == Some(Plain(Compose(fs, v)))
  {
    BuiltIsChain(h3, 0, fs);
    ChainResult(h3, From(0, |fs| + 1), fs);
  }
}
