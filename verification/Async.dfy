/** Promises and futures as the program runs them: shared cells updated in place, callbacks called in cascade. */
module Async {
  import opened Wrappers
  import opened Futures

  /** What a cell's m_data may hold: a plain value or, in a future of a future, a future. */
  datatype Value = Plainly(v: int) | Future(cell: AsyncData)

  function ContentOf(v: Value): Content<AsyncData>
  {
    match v
    case Plainly(x) => Plain(Ok(x))
    case Future(i) => Nested(i)
  }

  /** The cells that exist and the callbacks that have run: the history of one event loop. */
  class Loop {
    ghost var cells: set<AsyncData>
    ghost var log: seq<AsyncData>

    constructor ()
      ensures cells == {} && log == []
    {
      cells, log := {}, [];
    }

    ghost function Model(): Heap<AsyncData>
      reads this, cells
    {
      Heap(map c | c in cells :: c.State(), log)
    }
  }

  class AsyncData {
    const nested: bool
    var data: Option<Value>
    var exc: Option<Exn>
    var callback: Option<Callback<AsyncData>>
    ghost var def: Def<AsyncData>
    ghost var home: Option<AsyncData>

    constructor (isNested: bool, ghost definition: Def<AsyncData>)
      ensures nested == isNested && data == None && exc == None && callback == None && def == definition && home == None
    {
      nested, data, exc, callback, def, home := isNested, None, None, None, definition, None;
    }

    ghost function State(): Cell<AsyncData>
      reads this
    {
      Cell(if exc.Some? then Some(Plain(Err(exc.value))) else if data.Some? then Some(ContentOf(data.value)) else None,
           callback, def, home, nested)
    }

    /** This cell's future handle is moved away. */
    ghost method MoveTo(w: Loop, newHome: AsyncData)
      requires this in w.cells
      modifies this`home
      ensures home == Some(newHome) && w.Model() == Move(old(w.Model()), this, newHome)
    {
      ghost var h := w.Model();
      home := Some(newHome);
      assert w.Model().cells == Move(h, this, newHome).cells;
    }

    method StoreValue(w: Loop, v: Value)
      requires this in w.cells && State().content == None
      modifies this`data
      ensures w.Model() == old(w.Model()).(cells := old(w.Model()).cells[this := old(State()).(content := Some(ContentOf(v)))])
      ensures data.Some? && exc == old(exc)
    {
      ghost var h := w.Model();
      data := Some(v);
      assert w.Model().cells == h.cells[this := h.cells[this].(content := Some(ContentOf(v)))];
    }

    method StoreException(w: Loop, e: Exn)
      requires this in w.cells && State().content == None
      modifies this`exc
      ensures w.Model() == old(w.Model()).(cells := old(w.Model()).cells[this := old(State()).(content := Some(Plain(Err(e))))])
    {
      ghost var h := w.Model();
      exc := Some(e);
      assert w.Model().cells == h.cells[this := h.cells[this].(content := Some(Plain(Err(e))))];
    }

    method SetValue(w: Loop, v: Value)
      requires Ready(w.Model(), this, ContentOf(v))
      modifies w`log, w.cells
      ensures w.cells == old(w.cells) && w.Model() == Resolve(old(w.Model()), this, ContentOf(v))
      decreases |Unresolved(w.Model())|, 6
    {
      ghost var h := w.Model();
      SetContentKeeps(h, this, ContentOf(v));
      StoreValue(w, v);
      Proceed(w, h, ContentOf(v));
    }

    method SetException(w: Loop, e: Exn)
      requires Ready(w.Model(), this, Plain(Err(e)))
      modifies w`log, w.cells
      ensures w.cells == old(w.cells) && w.Model() == Resolve(old(w.Model()), this, Plain(Err(e)))
      decreases |Unresolved(w.Model())|, 6
    {
      ghost var h := w.Model();
      SetContentKeeps(h, this, Plain(Err(e)));
      StoreException(w, e);
      Proceed(w, h, Plain(Err(e)));
    }

    /** After the content is set: call the callback, if there is one. */
    method Proceed(w: Loop, ghost h: Heap<AsyncData>, ghost c: Content<AsyncData>)
      requires Ready(h, this, c)
      requires w.Model() == h.(cells := h.cells[this := h.cells[this].(content := Some(c))])
      requires Waiting(SetContent(h, this, c), this) && |Unresolved(SetContent(h, this, c))| < |Unresolved(h)|
      modifies w`log, w.cells
      ensures w.cells == old(w.cells) && w.Model() == Continue(SetContent(h, this, c), this, |Unresolved(h)|)
      decreases |Unresolved(h)|, 5
    {
      if callback.Some? {
        Call(w, |Unresolved(h)|);
      }
    }

    method SetCallback(w: Loop, cb: Callback<AsyncData>, ghost bound: nat)
      requires this in w.cells
      requires var h := Stored(w.Model(), this, cb);
        Waiting(Forward(h, this), this) && |Unresolved(Forward(h, this))| < bound
      modifies w`log, w.cells
      ensures w.cells == old(w.cells)
      ensures w.Model() == Continue(Forward(Stored(old(w.Model()), this, cb), this), this, bound)
      decreases bound, 3 + (if nested then 2 else 0)
    {
      ghost var h := Stored(w.Model(), this, cb);
      callback := Some(cb);
      assert w.Model().cells == h.cells;
      if exc.Some? || data.Some? {
        Call(w, bound);
      }
    }

    /** What the stored callback does when it is called with this cell. */
    method Call(w: Loop, ghost bound: nat)
      requires this in w.cells && callback.Some? && State().content.Some?
      requires Waiting(Forward(w.Model(), this), this) && |Unresolved(Forward(w.Model(), this))| < bound
      modifies w`log, w.cells
      ensures w.cells == old(w.cells) && w.Model() == Continue(Forward(old(w.Model()), this), this, bound)
      decreases bound, if nested then 4 else 2
    {
      ghost var h := Forward(w.Model(), this);
      assert ContentWired(h, this, h.cells[this].content.value);
      var cb := callback.value;
      if exc.Some? {
        RunReady(h, this);
        AsyncCallback(w, cb, Err(exc.value), bound);
      } else {
        match data.value {
          case Plainly(v) =>
            RunReady(h, this);
            AsyncCallback(w, cb, Ok(v), bound);
          case Future(i) =>
            assert i in w.cells;
            assert h == Stored(w.Model(), i, cb);
            i.SetCallback(w, cb, bound);
        }
      }
    }

    /** Run the function; its result, or what it throws, resolves the promise it was stored with. */
    static method AsyncCallback(w: Loop, cb: Callback<AsyncData>, r: Res, ghost bound: nat)
      requires Ready(Ran(w.Model(), cb.target), cb.target, Outcome(cb.f, cb.gives, r))
      requires |Unresolved(w.Model())| < bound
      modifies w`log, w.cells
      ensures w.cells == old(w.cells)
      ensures w.Model() == Resolve(Ran(old(w.Model()), cb.target), cb.target, Outcome(cb.f, cb.gives, r))
      decreases bound, 1
    {
      ghost var h := w.Model();
      w.log := w.log + [cb.target];
      assert w.Model() == Ran(h, cb.target);
      assert Unresolved(w.Model()) == Unresolved(h);
      var p := cb.target;
      var v := cb.f(r);
      match v {
        case Err(e) =>
          p.SetException(w, e);
        case Ok(x) =>
          p.SetValue(w, if cb.gives.Some? then Future(cb.gives.value) else Plainly(x));
      }
    }

    /** A new promise for the result of a callback on this cell. */
    method MakeTarget(w: Loop, f: Fn, gives: Option<AsyncData>) returns (t: AsyncData)
      requires this in w.cells
      requires gives.Some? ==> gives.value != this && Free(w.Model(), gives.value)
      requires Free(w.Model(), this) && (gives.Some? ==> !gives.value.nested)
      modifies w`cells, w.cells
      ensures fresh(t) && w.cells == old(w.cells) + {t}
      ensures w.Model() == Grow(old(w.Model()), this, f, gives, t)
    {
      ghost var h := w.Model();
      t := new AsyncData(gives.Some?, Derived(this, f, gives));
      if gives.Some? {
        gives.value.MoveTo(w, t);
      }
      w.cells := w.cells + {t};
      assert w.Model().cells == Grow(h, this, f, gives, t).cells;
    }

    /** future::next: a new promise, and a callback stored here that will resolve it. */
    method Next(w: Loop, f: Fn, gives: Option<AsyncData>) returns (t: AsyncData)
      requires Inv(w.Model()) && Free(w.Model(), this)
      requires gives.Some? ==> gives.value != this && Free(w.Model(), gives.value) && !gives.value.nested
      modifies w, w.cells
      ensures fresh(t) && w.cells == old(w.cells) + {t}
      ensures w.Model() == Apply(old(w.Model()), Futures.Next(this, f, gives, t))
    {
      ghost var h := w.Model();
      t := MakeTarget(w, f, gives);
      NextKeeps(h, this, f, gives, t);
      ghost var attached := Attach(h, this, f, gives, t);
      SetCallback(w, Callback(f, gives, t), |Unresolved(Forward(attached, this))| + 1);
    }
  }

  /** A new cell in the loop. */
  ghost method Register(w: Loop, cell: AsyncData)
    requires Inv(w.Model()) && cell !in w.cells && cell.State() == Cell(None, None, Root, None, cell.nested)
    modifies w`cells
    ensures w.cells == old(w.cells) + {cell} && w.Model() == Apply(old(w.Model()), NewPromise(cell, cell.nested))
  {
    ghost var h := w.Model();
    NewPromiseKeeps(h, cell, cell.nested);
    w.cells := w.cells + {cell};
    assert w.Model().cells == h.cells[cell := Cell(None, None, Root, None, cell.nested)];
  }

  /** A cell's one result; a future given to it is moved there. */
  method Resolved(w: Loop, cell: AsyncData, r: Result<Value, Exn>)
    requires var c := match r case Ok(v) => ContentOf(v) case Err(e) => Plain(Err(e));
      Inv(w.Model()) && Legal(w.Model(), Fulfil(cell, c))
    modifies w`log, w.cells
    ensures w.cells == old(w.cells)
    ensures var c := match r case Ok(v) => ContentOf(v) case Err(e) => Plain(Err(e));
      w.Model() == Apply(old(w.Model()), Fulfil(cell, c))
  {
    match r {
      case Ok(v) =>
        FulfilReady(w.Model(), cell, ContentOf(v));
        if v.Future? {
          v.cell.MoveTo(w, cell);
        }
        cell.SetValue(w, v);
      case Err(e) =>
        FulfilReady(w.Model(), cell, Plain(Err(e)));
        cell.SetException(w, e);
    }
  }

  datatype PromiseError = AlreadySatisfied

  /** The write handle of a cell; satisfying the promise, or destroying it, ends it. */
  class Promise {
    var data: AsyncData?

    constructor (w: Loop, isNested: bool)
      requires Inv(w.Model())
      modifies w
      ensures data != null && fresh(data) && w.cells == old(w.cells) + {data}
      ensures w.Model() == Apply(old(w.Model()), NewPromise(data, isNested))
    {
      var cell := new AsyncData(isNested, Root);
      data := cell;
      new;
      Register(w, cell);
    }

    method SetValue(w: Loop, v: Value) returns (threw: Option<PromiseError>)
      requires Inv(w.Model()) && (data != null ==> Legal(w.Model(), Fulfil(data, ContentOf(v))))
      modifies this, w`log, w.cells
      ensures old(data) == null ==> threw == Some(AlreadySatisfied) && w.Model() == old(w.Model())
      ensures old(data) != null ==> threw == None && data == null
                                    && w.Model() == Apply(old(w.Model()), Fulfil(old(data), ContentOf(v)))
    {
      if data == null {
        return Some(AlreadySatisfied);
      }
      Resolved(w, data, Ok(v));
      data := null;
      return None;
    }

    /** Also what the destructor does, with the broken-promise exception. */
    method SetException(w: Loop, e: Exn) returns (threw: Option<PromiseError>)
      requires Inv(w.Model()) && (data != null ==> Legal(w.Model(), Fulfil(data, Plain(Err(e)))))
      modifies this, w`log, w.cells
      ensures old(data) == null ==> threw == Some(AlreadySatisfied) && w.Model() == old(w.Model())
      ensures old(data) != null ==> threw == None && data == null
                                    && w.Model() == Apply(old(w.Model()), Fulfil(old(data), Plain(Err(e))))
    {
      if data == null {
        return Some(AlreadySatisfied);
      }
      Resolved(w, data, Err(e));
      data := null;
      return None;
    }

    /** The destructor: a promise still unsatisfied breaks. */
    method Destruct(w: Loop)
      requires Inv(w.Model()) && (data != null ==> Legal(w.Model(), Fulfil(data, Plain(Err(Broken)))))
      modifies this, w`log, w.cells
      ensures w.Model() == if old(data) == null then old(w.Model()) else Apply(old(w.Model()), Destroy(old(data)))
    {
      if data != null {
        var threw := SetException(w, Broken);
      }
    }
  }
}
