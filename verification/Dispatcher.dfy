/** Owning function wrappers as an object-lifetime protocol, and the dispatcher that defers self-replacement. */
module Callbacks {
  import opened Options

  /** What a callable does when it runs. */
  datatype Callable = Callable(id: nat)

  /** A callable constructed in the inline storage of a wrapper, where it stays until it is destroyed. */
  datatype Object = Object(value: Callable, home: Function)

  /** Every callable ever constructed, the destructor calls so far, what each live wrapper holds, and the callable
      being executed. */
  datatype World = World(
    objects: seq<Object>,
    ended: seq<nat>,
    holds: map<Function, Option<nat>>,
    executing: Option<nat>,
    killedRunning: bool)

  const EMPTY := World([], [], map[], None, false)

  // ----- the wrapper's operations -----

  /** Placement-new of a callable in `f`. */
  function Constructed(w: World, f: Function, c: Callable): World {
    w.(objects := w.objects + [Object(c, f)], holds := w.holds[f := Some(|w.objects|)])
  }

  /** The stored destructor, if there is one; the wrapper is empty afterwards. */
  function Emptied(w: World, f: Function): World
    requires f in w.holds
  {
    match w.holds[f]
    case None => w
    case Some(id) =>
      w.(ended := w.ended + [id], holds := w.holds[f := None],
         killedRunning := w.killedRunning || w.executing == Some(id))
  }

  function Value(w: World, f: Function): Option<Callable>
    requires f in w.holds
  {
    match w.holds[f]
    case None => None
    case Some(id) => if id < |w.objects| then Some(w.objects[id].value) else None
  }

  /** Construction from a callable, a function pointer or null. */
  function Made(w: World, f: Function, c: Option<Callable>): World {
    match c
    case None => w.(holds := w.holds[f := None])
    case Some(v) => Constructed(w, f, v)
  }

  /** A copy of what `g` holds is constructed in `f`. */
  function CopiedInto(w: World, f: Function, g: Function): World
    requires g in w.holds
  {
    Made(w, f, Value(w, g))
  }

  /** What `g` holds is constructed anew in `f` and destroyed in `g`. */
  function MovedInto(w: World, f: Function, g: Function): World
    requires g in w.holds && f != g
  {
    Emptied(Made(w, f, Value(w, g)), g)
  }

  function CopyAssigned(w: World, f: Function, g: Function): World
    requires f in w.holds && g in w.holds
  {
    if f == g then w else CopiedInto(Emptied(w, f), f, g)
  }

  function MoveAssigned(w: World, f: Function, g: Function): World
    requires f in w.holds && g in w.holds
  {
    if f == g then w else MovedInto(Emptied(w, f), f, g)
  }

  /** Assignment of a function pointer or null. */
  function PointerAssigned(w: World, f: Function, c: Option<Callable>): World
    requires f in w.holds
  {
    Made(Emptied(w, f), f, c)
  }

  function Dropped(w: World, f: Function): World
    requires f in w.holds
  {
    var e := Emptied(w, f);
    e.(holds := e.holds - {f})
  }

  // ----- lifetimes -----

  predicate Alive(w: World, id: nat) {
    id < |w.objects| && id !in w.ended
  }

  /** Callables are alive exactly while a wrapper holds them, and no destructor ran twice. */
  ghost predicate Sound(w: World) {
    && (forall f :: f in w.holds && w.holds[f].Some? ==>
          Alive(w, w.holds[f].value) && w.objects[w.holds[f].value].home == f)
    && (forall id: nat :: Alive(w, id) ==> w.objects[id].home in w.holds && w.holds[w.objects[id].home] == Some(id))
    && (forall i, j :: 0 <= i < j < |w.ended| ==> w.ended[i] != w.ended[j])
    && (forall i :: 0 <= i < |w.ended| ==> w.ended[i] < |w.objects|)
  }

  lemma EmptiedSound(w: World, f: Function)
    requires Sound(w) && f in w.holds
    ensures Sound(Emptied(w, f)) && Emptied(w, f).holds[f] == None
  {
    if w.holds[f].Some? {
      var r, id := Emptied(w, f), w.holds[f].value;
      assert forall k :: Alive(r, k) <==> Alive(w, k) && k != id;
    }
  }

  lemma MadeSound(w: World, f: Function, c: Option<Callable>)
    requires Sound(w) && (f in w.holds ==> w.holds[f] == None)
    ensures Sound(Made(w, f, c)) && Value(Made(w, f, c), f) == c
  {
    if c.Some? {
      var r := Made(w, f, c);
      assert forall k: nat :: k in w.ended ==> k < |w.objects|;
      assert forall k :: Alive(r, k) <==> Alive(w, k) || k == |w.objects|;
    }
  }

  lemma DroppedSound(w: World, f: Function)
    requires Sound(w) && f in w.holds
    ensures Sound(Dropped(w, f))
  {
    EmptiedSound(w, f);
    var e, r := Emptied(w, f), Dropped(w, f);
    assert forall k :: Alive(r, k) <==> Alive(e, k);
  }

  // ----- wrappers as plain variables -----

  type Vars = map<Function, Option<Callable>>

  /** The values of all wrappers but one. */
  ghost function VarsExcept(w: World, p: Function): Vars {
    map f | f in w.holds && f != p :: Value(w, f)
  }

  function PlainMove(v: Vars, f: Function, g: Function): Vars
    requires f in v && g in v
  {
    if f == g then v else v[f := v[g]][g := None]
  }

  lemma EmptiedValues(w: World, f: Function, g: Function)
    requires Sound(w) && f in w.holds && g in w.holds
    ensures Value(Emptied(w, f), g) == if f == g then None else Value(w, g)
  {
  }

  lemma MadeValues(w: World, f: Function, c: Option<Callable>, g: Function)
    requires Sound(w) && (f in w.holds ==> w.holds[f] == None) && g in w.holds
    ensures Value(Made(w, f, c), g) == if f == g then c else Value(w, g)
  {
    MadeSound(w, f, c);
  }

  /** A wrapper being filled from another one, both live, the target already emptied. */
  lemma MovedIntoIs(e: World, f: Function, g: Function)
    requires Sound(e) && f in e.holds && g in e.holds && f != g && e.holds[f] == None
    ensures var r := MovedInto(e, f, g);
            && Sound(r) && r.holds.Keys == e.holds.Keys && r.executing == e.executing
            && forall h :: h in e.holds ==>
                 Value(r, h) == if h == f then Value(e, g) else if h == g then None else Value(e, h)
  {
    var m := Made(e, f, Value(e, g));
    MadeSound(e, f, Value(e, g));
    EmptiedSound(m, g);
    hide Sound, Value;
    forall h | h in e.holds
      ensures Value(MovedInto(e, f, g), h) == if h == f then Value(e, g) else if h == g then None else Value(e, h)
    {
      MadeValues(e, f, Value(e, g), h);
      EmptiedValues(m, g, h);
    }
  }

  /** Move assignment, on the values: the target takes the source's, the source is left empty. */
  lemma MoveAssignedIs(w: World, f: Function, g: Function)
    requires Sound(w) && f in w.holds && g in w.holds
    ensures var r := MoveAssigned(w, f, g);
            && Sound(r) && r.holds.Keys == w.holds.Keys && r.executing == w.executing
            && forall h :: h in w.holds ==>
                 Value(r, h) == if f == g then Value(w, h) else if h == f then Value(w, g) else if h == g then None
                                else Value(w, h)
  {
    if f != g {
      var e := Emptied(w, f);
      EmptiedSound(w, f);
      MovedIntoIs(e, f, g);
      hide Sound, Value, MovedInto;
      forall h | h in w.holds
        ensures Value(e, h) == if h == f then None else Value(w, h)
      {
        EmptiedValues(w, f, h);
      }
    }
  }

  /** Copy assignment: the target takes the source's value, the source keeps it. */
  lemma CopyAssignedIs(w: World, f: Function, g: Function)
    requires Sound(w) && f in w.holds && g in w.holds
    ensures var r := CopyAssigned(w, f, g);
            && Sound(r) && r.holds.Keys == w.holds.Keys && r.executing == w.executing
            && forall h :: h in w.holds ==> Value(r, h) == Value(w, if h == f then g else h)
  {
    if f != g {
      PointerAssignedIs(w, f, Value(w, g));
      EmptiedValues(w, f, g);
    }
  }

  lemma PointerAssignedIs(w: World, f: Function, c: Option<Callable>)
    requires Sound(w) && f in w.holds
    ensures var r := PointerAssigned(w, f, c);
            && Sound(r) && r.holds.Keys == w.holds.Keys && r.executing == w.executing
            && forall h :: h in w.holds ==> Value(r, h) == if h == f then c else Value(w, h)
  {
    var e := Emptied(w, f);
    EmptiedSound(w, f);
    MadeSound(e, f, c);
    hide Sound, Value;
    forall h | h in w.holds
      ensures Value(PointerAssigned(w, f, c), h) == if h == f then c else Value(w, h)
    {
      EmptiedValues(w, f, h);
      MadeValues(e, f, c, h);
    }
  }

  lemma MadeIs(w: World, f: Function, c: Option<Callable>)
    requires Sound(w) && f !in w.holds
    ensures var r := Made(w, f, c);
            && Sound(r) && r.holds.Keys == w.holds.Keys + {f} && r.executing == w.executing
            && forall h :: h in r.holds ==> Value(r, h) == if h == f then c else Value(w, h)
  {
    MadeSound(w, f, c);
    forall h | h in w.holds
      ensures Value(Made(w, f, c), h) == Value(w, h)
    {
      MadeValues(w, f, c, h);
    }
  }

  lemma DroppedIs(w: World, f: Function)
    requires Sound(w) && f in w.holds
    ensures var r := Dropped(w, f);
            && Sound(r) && r.holds.Keys == w.holds.Keys - {f} && r.executing == w.executing
            && forall h :: h in r.holds ==> Value(r, h) == Value(w, h)
  {
    DroppedSound(w, f);
    forall h | h in w.holds && h != f
      ensures Value(Dropped(w, f), h) == Value(w, h)
    {
      EmptiedValues(w, f, h);
    }
  }

  lemma MoveMadeIs(w: World, f: Function, g: Function)
    requires Sound(w) && f !in w.holds && g in w.holds
    ensures var r := MovedInto(w, f, g);
            && Sound(r) && r.holds.Keys == w.holds.Keys + {f} && r.executing == w.executing
            && forall h :: h in r.holds ==>
                 Value(r, h) == if h == f then Value(w, g) else if h == g then None else Value(w, h)
  {
    var m := Made(w, f, Value(w, g));
    MadeIs(w, f, Value(w, g));
    EmptiedSound(m, g);
    hide Sound, Value;
    forall h | h in m.holds
      ensures Value(MovedInto(w, f, g), h) == if h == f then Value(w, g) else if h == g then None else Value(w, h)
    {
      EmptiedValues(m, g, h);
    }
  }

  // ----- the dispatcher -----

  datatype Deferred = NoAction | DoReplace | DoClear

  /** What a callback does while it runs: make and drop temporaries, and ask the dispatcher for changes. */
  datatype Request =
    | Make(f: Function, c: Option<Callable>)
    | Drop(f: Function)
    | Replace(target: Function, next: Function)
    | Clear(target: Function)

  /** One request while `r` runs; `p` is the dispatcher's pending wrapper. */
  function Requested(w: World, r: Function, p: Function, d: Deferred, q: Request): (World, Deferred)
    requires p in w.holds && Allowed(w, r, p, q)
  {
    match q
    case Make(f, c) => (Made(w, f, c), d)
    case Drop(f) => (Dropped(w, f), d)
    case Replace(t, n) => if t == r then (MoveAssigned(w, p, n), DoReplace) else (MoveAssigned(w, t, n), d)
    case Clear(t) => if t == r then (PointerAssigned(w, p, None), DoClear) else (PointerAssigned(w, t, None), d)
  }

  /** Operands are live and are not the dispatcher's own wrapper; the running wrapper outlives the call. */
  predicate Allowed(w: World, r: Function, p: Function, q: Request) {
    match q
    case Make(f, _) => f !in w.holds
    case Drop(f) => f in w.holds && f != p && f != r
    case Replace(t, n) => t in w.holds && n in w.holds && t != p && n != p
    case Clear(t) => t in w.holds && t != p
  }

  /** The state after the requests of a callback, if all of them were allowed when they were made. */
  function RunRequests(w: World, r: Function, p: Function, qs: seq<Request>): Option<(World, Deferred)> {
    if qs == [] then Some((w, NoAction))
    else
      match RunRequests(w, r, p, qs[..|qs| - 1])
      case None => None
      case Some((m, d)) =>
        if p in m.holds && Allowed(m, r, p, qs[|qs| - 1]) then Some(Requested(m, r, p, d, qs[|qs| - 1])) else None
  }

  function Begun(w: World, r: Function): World
    requires r in w.holds
  {
    w.(executing := w.holds[r])
  }

  /** What `invoke` does once the callback has returned. */
  function Settled(w: World, r: Function, p: Function, d: Deferred): World
    requires r in w.holds && p in w.holds
  {
    var done := w.(executing := None);
    match d
    case NoAction => done
    case DoReplace => MoveAssigned(done, r, p)
    case DoClear => PointerAssigned(done, r, None)
  }

  // ----- what a dispatch amounts to -----

  function PlainRequest(v: Vars, q: Request): Vars {
    match q
    case Make(f, c) => v[f := c]
    case Drop(f) => v - {f}
    case Replace(t, n) => if t in v && n in v then PlainMove(v, t, n) else v
    case Clear(t) => v[t := None]
  }

  function PlainRequests(v: Vars, qs: seq<Request>): Vars {
    if qs == [] then v else PlainRequest(PlainRequests(v, qs[..|qs| - 1]), qs[|qs| - 1])
  }

  predicate MovesFrom(q: Request, r: Function) {
    q.Replace? && q.next == r
  }

  /** What the running wrapper will hold once the deferred action has been applied. */
  function Effective(w: World, r: Function, p: Function, d: Deferred): Option<Callable>
    requires r in w.holds && p in w.holds
  {
    match d
    case NoAction => Value(w, r)
    case DoReplace => Value(w, p)
    case DoClear => None
  }

  ghost predicate Mirrors(w: World, d: Deferred, r: Function, p: Function, v: Vars)
    requires r in w.holds && p in w.holds
  {
    && v.Keys == w.holds.Keys - {p}
    && forall f :: f in v ==> v[f] == if f == r then Effective(w, r, p, d) else Value(w, f)
  }

  /** While `r` runs object `id`: lifetimes are in order, the object stays put, and up to the deferred action the
      wrappers hold what plain variables would. */
  ghost predicate Underway(w: World, d: Deferred, r: Function, p: Function, id: nat, v: Vars) {
    && Sound(w) && r != p && r in w.holds && p in w.holds
    && w.holds[r] == Some(id) == w.executing && !w.killedRunning
    && (d != DoReplace ==> w.holds[p] == None)
    && Mirrors(w, d, r, p, v)
  }

  /** Only the running wrapper holds the object being executed. */
  lemma NotExecuting(w: World, r: Function, f: Function, id: nat)
    requires Sound(w) && r in w.holds && f in w.holds && f != r
    requires w.holds[r] == Some(id) == w.executing
    ensures w.holds[f] != Some(id)
  {
  }

  /** The object being executed is still held by `r`, and nothing has destroyed it. */
  ghost predicate Spared(w: World, r: Function, id: nat) {
    r in w.holds && w.holds[r] == Some(id) == w.executing && !w.killedRunning
  }

  lemma MoveSpares(w: World, r: Function, id: nat, f: Function, g: Function)
    requires Sound(w) && Spared(w, r, id) && f in w.holds && g in w.holds && f != r && g != r
    ensures Spared(MoveAssigned(w, f, g), r, id)
  {
    NotExecuting(w, r, f, id);
    NotExecuting(w, r, g, id);
    if f != g {
      EmptiedSound(w, f);
    }
  }

  lemma ClearSpares(w: World, r: Function, id: nat, f: Function)
    requires Sound(w) && Spared(w, r, id) && f in w.holds && f != r
    ensures Spared(PointerAssigned(w, f, None), r, id)
  {
    NotExecuting(w, r, f, id);
  }

  lemma MakeUnderway(w: World, d: Deferred, r: Function, p: Function, id: nat, v: Vars,
                     f: Function, c: Option<Callable>)
    requires Underway(w, d, r, p, id, v) && f !in w.holds
    ensures Underway(Made(w, f, c), d, r, p, id, v[f := c])
  {
    MadeIs(w, f, c);
    hide Sound, Value;
  }

  lemma DropUnderway(w: World, d: Deferred, r: Function, p: Function, id: nat, v: Vars, f: Function)
    requires Underway(w, d, r, p, id, v) && f in w.holds && f != p && f != r
    ensures Underway(Dropped(w, f), d, r, p, id, v - {f})
  {
    DroppedIs(w, f);
    NotExecuting(w, r, f, id);
    hide Sound, Value;
  }

  lemma ReplaceSelfMirrors(w: World, d: Deferred, r: Function, p: Function, v: Vars, n: Function)
    requires Sound(w) && r in w.holds && p in w.holds && r != p && Mirrors(w, d, r, p, v)
    requires n in w.holds && n != p && n != r
    ensures MoveAssigned(w, p, n).holds.Keys == w.holds.Keys
    ensures Mirrors(MoveAssigned(w, p, n), DoReplace, r, p, v[r := v[n]][n := None])
  {
    MoveAssignedIs(w, p, n);
    var m := MoveAssigned(w, p, n);
    hide Sound, Value, MoveAssigned;
    assert v[n] == Value(w, n);
    var v' := v[r := v[n]][n := None];
    forall f | f in v'
      ensures v'[f] == if f == r then Effective(m, r, p, DoReplace) else Value(m, f)
    {
      assert f in w.holds;
      if f != r && f != n {
        assert v[f] == Value(w, f);
      }
    }
  }

  /** Replacing the running wrapper parks the new callable in the pending one. */
  lemma ReplaceSelfUnderway(w: World, d: Deferred, r: Function, p: Function, id: nat, v: Vars, n: Function)
    requires Underway(w, d, r, p, id, v) && n in w.holds && n != p && n != r
    ensures Underway(MoveAssigned(w, p, n), DoReplace, r, p, id, v[r := v[n]][n := None])
  {
    MoveAssignedIs(w, p, n);
    MoveSpares(w, r, id, p, n);
    ReplaceSelfMirrors(w, d, r, p, v, n);
    hide Sound, Value, MoveAssigned, Mirrors;
  }

  lemma ReplaceOtherMirrors(w: World, d: Deferred, r: Function, p: Function, v: Vars, t: Function, n: Function)
    requires Sound(w) && r in w.holds && p in w.holds && r != p && Mirrors(w, d, r, p, v)
    requires t in w.holds && n in w.holds && t != p && n != p && t != r && n != r && t != n
    ensures MoveAssigned(w, t, n).holds.Keys == w.holds.Keys
    ensures Mirrors(MoveAssigned(w, t, n), d, r, p, v[t := v[n]][n := None])
  {
    MoveAssignedIs(w, t, n);
    var m := MoveAssigned(w, t, n);
    hide Sound, Value, MoveAssigned;
    assert Effective(m, r, p, d) == Effective(w, r, p, d);
    hide Effective;
    assert t in v && n in v && v[n] == Value(w, n);
    var v' := v[t := v[n]][n := None];
    assert v'.Keys == v.Keys;
    forall f | f in v'
      ensures v'[f] == if f == r then Effective(m, r, p, d) else Value(m, f)
    {
      assert f in w.holds;
      if f != r && f != t && f != n {
        assert v[f] == Value(w, f);
      }
    }
  }

  lemma ReplaceOtherUnderway(w: World, d: Deferred, r: Function, p: Function, id: nat, v: Vars,
                             t: Function, n: Function)
    requires Underway(w, d, r, p, id, v)
    requires t in w.holds && n in w.holds && t != p && n != p && t != r && n != r
    ensures Underway(MoveAssigned(w, t, n), d, r, p, id, PlainMove(v, t, n))
  {
    if t != n {
      MoveAssignedIs(w, t, n);
      MoveSpares(w, r, id, t, n);
      MoveLeaves(w, t, n, p);
      ReplaceOtherMirrors(w, d, r, p, v, t, n);
      hide Sound, Value, MoveAssigned, Mirrors;
    }
  }

  lemma MoveLeaves(w: World, f: Function, g: Function, h: Function)
    requires f in w.holds && g in w.holds && h in w.holds && h != f && h != g
    ensures MoveAssigned(w, f, g).holds[h] == w.holds[h]
  {
  }

  lemma ReplaceUnderway(w: World, d: Deferred, r: Function, p: Function, id: nat, v: Vars, t: Function, n: Function)
    requires Underway(w, d, r, p, id, v) && Allowed(w, r, p, Replace(t, n)) && n != r
    ensures var (m, e) := Requested(w, r, p, d, Replace(t, n)); Underway(m, e, r, p, id, PlainRequest(v, Replace(t, n)))
  {
    if t == r {
      ReplaceSelfUnderway(w, d, r, p, id, v, n);
    } else {
      ReplaceOtherUnderway(w, d, r, p, id, v, t, n);
    }
    hide Sound, Value, MoveAssigned;
  }

  lemma ClearSelfUnderway(w: World, d: Deferred, r: Function, p: Function, id: nat, v: Vars)
    requires Underway(w, d, r, p, id, v)
    ensures Underway(PointerAssigned(w, p, None), DoClear, r, p, id, v[r := None])
  {
    PointerAssignedIs(w, p, None);
    ClearSpares(w, r, id, p);
    EmptiedHolds(w, p);
    hide Sound, Value, PointerAssigned;
  }

  lemma ClearOtherUnderway(w: World, d: Deferred, r: Function, p: Function, id: nat, v: Vars, t: Function)
    requires Underway(w, d, r, p, id, v) && t in w.holds && t != p && t != r
    ensures Underway(PointerAssigned(w, t, None), d, r, p, id, v[t := None])
  {
    PointerAssignedIs(w, t, None);
    ClearSpares(w, r, id, t);
    EmptiedHolds(w, t);
    hide Sound, Value, PointerAssigned;
  }

  lemma EmptiedHolds(w: World, f: Function)
    requires f in w.holds
    ensures PointerAssigned(w, f, None).holds == w.holds[f := None]
  {
  }

  lemma StepUnderway(w: World, d: Deferred, r: Function, p: Function, id: nat, v: Vars, q: Request)
    requires Underway(w, d, r, p, id, v) && Allowed(w, r, p, q) && !MovesFrom(q, r)
    ensures var (m, e) := Requested(w, r, p, d, q); Underway(m, e, r, p, id, PlainRequest(v, q))
  {
    hide Underway;
    match q {
      case Make(f, c) => MakeUnderway(w, d, r, p, id, v, f, c);
      case Drop(f) => DropUnderway(w, d, r, p, id, v, f);
      case Replace(t, n) => ReplaceUnderway(w, d, r, p, id, v, t, n);
      case Clear(t) =>
        if t == r {
          ClearSelfUnderway(w, d, r, p, id, v);
        } else {
          ClearOtherUnderway(w, d, r, p, id, v, t);
        }
    }
  }

  lemma {:induction false} RequestsUnderway(w: World, r: Function, p: Function, id: nat, v: Vars, qs: seq<Request>)
    requires Underway(w, NoAction, r, p, id, v)
    requires RunRequests(w, r, p, qs).Some? && forall i :: 0 <= i < |qs| ==> !MovesFrom(qs[i], r)
    ensures var (m, d) := RunRequests(w, r, p, qs).value; Underway(m, d, r, p, id, PlainRequests(v, qs))
  {
    hide Underway, Requested, Allowed;
    if qs != [] {
      var front := qs[..|qs| - 1];
      RequestsUnderway(w, r, p, id, v, front);
      var (m, d) := RunRequests(w, r, p, front).value;
      StepUnderway(m, d, r, p, id, PlainRequests(v, front), qs[|qs| - 1]);
    }
  }

  /** A whole dispatch of `r`, with the requests its callable makes. */
  function Dispatched(w: World, r: Function, p: Function, qs: seq<Request>): Option<World>
    requires r in w.holds
  {
    match RunRequests(Begun(w, r), r, p, qs)
    case None => None
    case Some((m, d)) => if r in m.holds && p in m.holds then Some(Settled(m, r, p, d)) else None
  }

  /** Between dispatches: nothing runs, nothing is pending, lifetimes are in order. */
  ghost predicate Quiet(w: World, p: Function) {
    Sound(w) && w.executing == None && !w.killedRunning && p in w.holds && w.holds[p] == None
  }

  /** Once the callback has returned nothing is executing; wrappers and values are as they were. */
  lemma Returned(w: World)
    requires Sound(w)
    ensures var done := w.(executing := None);
            Sound(done) && forall f :: f in w.holds ==> Value(done, f) == Value(w, f)
  {
    assert forall k: nat :: Alive(w.(executing := None), k) <==> Alive(w, k);
  }

  lemma ReplaceSettles(w: World, r: Function, p: Function, v: Vars)
    requires Sound(w) && w.executing == None && !w.killedRunning && r in w.holds && p in w.holds && r != p
    requires v.Keys == w.holds.Keys - {p}
    requires forall f :: f in v ==> v[f] == Value(w, if f == r then p else f)
    ensures Quiet(MoveAssigned(w, r, p), p) && VarsExcept(MoveAssigned(w, r, p), p) == v
  {
    MoveAssignedIs(w, r, p);
    NothingKilled(w, r);
    NothingKilled(Made(Emptied(w, r), r, Value(Emptied(w, r), p)), p);
    MovedIntoEmpties(Emptied(w, r), r, p);
    hide Sound, Value, Emptied, Made;
  }

  lemma MovedIntoEmpties(w: World, f: Function, g: Function)
    requires f in w.holds && g in w.holds && f != g
    ensures MovedInto(w, f, g).holds[g] == None
  {
  }

  lemma ClearSettles(w: World, r: Function, p: Function, v: Vars)
    requires Sound(w) && w.executing == None && !w.killedRunning && r in w.holds && p in w.holds && r != p
    requires w.holds[p] == None && v.Keys == w.holds.Keys - {p}
    requires forall f :: f in v ==> v[f] == if f == r then None else Value(w, f)
    ensures Quiet(PointerAssigned(w, r, None), p) && VarsExcept(PointerAssigned(w, r, None), p) == v
  {
    PointerAssignedIs(w, r, None);
    NothingKilled(w, r);
    hide Sound, Value;
  }

  lemma SettledIs(w: World, d: Deferred, r: Function, p: Function, id: nat, v: Vars)
    requires Underway(w, d, r, p, id, v)
    ensures Quiet(Settled(w, r, p, d), p) && VarsExcept(Settled(w, r, p, d), p) == v
  {
    Returned(w);
    var done := w.(executing := None);
    hide Sound, Value;
    match d {
      case NoAction =>
      case DoReplace => ReplaceSettles(done, r, p, v);
      case DoClear => ClearSettles(done, r, p, v);
    }
  }

  lemma NothingKilled(w: World, f: Function)
    requires f in w.holds && w.executing == None
    ensures Emptied(w, f).killedRunning == w.killedRunning && Emptied(w, f).executing == None
  {
  }

  /** The dispatcher's promise: whatever list of changes the running callback asks for, itself included, every wrapper
      ends up holding what the same changes in the same order leave in plain variables; each callable destroyed was
      destroyed once, and not while it ran. */
  lemma DispatchIsPlain(w: World, r: Function, p: Function, qs: seq<Request>)
    requires Quiet(w, p) && r in w.holds && r != p && w.holds[r].Some?
    requires Dispatched(w, r, p, qs).Some? && forall i :: 0 <= i < |qs| ==> !MovesFrom(qs[i], r)
    ensures var t := Dispatched(w, r, p, qs).value;
            Quiet(t, p) && VarsExcept(t, p) == PlainRequests(VarsExcept(w, p), qs)
  {
    var b, id := Begun(w, r), w.holds[r].value;
    assert Sound(b);
    assert Underway(b, NoAction, r, p, id, VarsExcept(w, p));
    RequestsUnderway(b, r, p, id, VarsExcept(w, p), qs);
    var (m, d) := RunRequests(b, r, p, qs).value;
    SettledIs(m, d, r, p, id, PlainRequests(VarsExcept(w, p), qs));
  }

  // ----- what the dispatcher relies on -----

  lemma RequestSpares(w: World, d: Deferred, r: Function, p: Function, id: nat, q: Request)
    requires Sound(w) && r != p && p in w.holds && Allowed(w, r, p, q) && Spared(w, r, id) && !MovesFrom(q, r)
    ensures Spared(Requested(w, r, p, d, q).0, r, id)
  {
    match q {
      case Make(f, c) =>
      case Drop(f) => NotExecuting(w, r, f, id);
      case Replace(t, n) => MoveSpares(w, r, id, if t == r then p else t, n);
      case Clear(t) => ClearSpares(w, r, id, if t == r then p else t);
    }
  }

  lemma MovingRunningKills(w: World, d: Deferred, r: Function, p: Function, id: nat, q: Request)
    requires r != p && p in w.holds && Allowed(w, r, p, q) && Spared(w, r, id) && MovesFrom(q, r)
    ensures Requested(w, r, p, d, q).0.killedRunning
  {
  }

  lemma KilledStaysKilled(w: World, d: Deferred, r: Function, p: Function, q: Request)
    requires p in w.holds && Allowed(w, r, p, q) && w.killedRunning
    ensures Requested(w, r, p, d, q).0.killedRunning
  {
  }

  lemma RequestKeepsRunning(w: World, d: Deferred, r: Function, p: Function, id: nat, q: Request)
    requires Sound(w) && r != p && p in w.holds && Allowed(w, r, p, q) && r in w.holds
    requires w.executing == Some(id)
    requires !w.killedRunning ==> w.holds[r] == Some(id)
    ensures var m := Requested(w, r, p, d, q).0;
            && Sound(m) && p in m.holds && r in m.holds && m.executing == Some(id)
            && (m.killedRunning <==> w.killedRunning || MovesFrom(q, r))
            && (!m.killedRunning ==> m.holds[r] == Some(id))
  {
    RequestKeepsSound(w, d, r, p, q);
    if w.killedRunning {
      KilledStaysKilled(w, d, r, p, q);
    } else if MovesFrom(q, r) {
      MovingRunningKills(w, d, r, p, id, q);
    } else {
      RequestSpares(w, d, r, p, id, q);
    }
    hide Sound, Requested;
  }

  lemma RequestKeepsSound(w: World, d: Deferred, r: Function, p: Function, q: Request)
    requires Sound(w) && r != p && p in w.holds && Allowed(w, r, p, q) && r in w.holds
    ensures var m := Requested(w, r, p, d, q).0;
            Sound(m) && p in m.holds && r in m.holds && m.executing == w.executing
  {
    hide Sound;
    match q {
      case Make(f, c) => MadeIs(w, f, c);
      case Drop(f) => DroppedIs(w, f);
      case Replace(t, n) => MoveAssignedIs(w, if t == r then p else t, n);
      case Clear(t) => PointerAssignedIs(w, if t == r then p else t, None);
    }
  }

  lemma {:induction false} RequestsKeepRunning(w: World, r: Function, p: Function, id: nat, qs: seq<Request>)
    requires Sound(w) && r != p && p in w.holds && r in w.holds
    requires w.holds[r] == Some(id) == w.executing && !w.killedRunning && RunRequests(w, r, p, qs).Some?
    ensures var m := RunRequests(w, r, p, qs).value.0;
            && Sound(m) && p in m.holds && r in m.holds && m.executing == Some(id)
            && (m.killedRunning <==> exists i :: 0 <= i < |qs| && MovesFrom(qs[i], r))
            && (!m.killedRunning ==> m.holds[r] == Some(id))
  {
    if qs != [] {
      var front := qs[..|qs| - 1];
      RequestsKeepRunning(w, r, p, id, front);
      var (m, d) := RunRequests(w, r, p, front).value;
      RequestKeepsRunning(m, d, r, p, id, qs[|qs| - 1]);
      hide Sound, Requested, Allowed;
      assert qs == front + [qs[|qs| - 1]];
      assert forall i :: 0 <= i < |front| ==> front[i] == qs[i];
    }
  }

  /** Exactly when a callback is destroyed under its own feet: it handed its own wrapper to `replace` as the source. */
  lemma RunningIsDestroyedIff(w: World, r: Function, p: Function, qs: seq<Request>)
    requires Quiet(w, p) && r in w.holds && r != p && w.holds[r].Some?
    requires RunRequests(Begun(w, r), r, p, qs).Some?
    ensures RunRequests(Begun(w, r), r, p, qs).value.0.killedRunning
       <==> exists i :: 0 <= i < |qs| && MovesFrom(qs[i], r)
  {
    var b := Begun(w, r);
    assert forall k: nat :: Alive(b, k) <==> Alive(w, k);
    assert Sound(b);
    RequestsKeepRunning(b, r, p, w.holds[r].value, qs);
  }

  // ----- runs -----

  datatype Op =
    | Build(f: Function, c: Option<Callable>)
    | CopyBuild(f: Function, g: Function)
    | MoveBuild(f: Function, g: Function)
    | CopyAssign(f: Function, g: Function)
    | MoveAssign(f: Function, g: Function)
    | PointerAssign(f: Function, c: Option<Callable>)
    | Destroy(f: Function)
    | Dispatch(f: Function, requests: seq<Request>)

  /** Operands are live, what is built is not, the pending wrapper is private, a dispatched wrapper is not empty, and
      its callback does not move from it. */
  ghost predicate Legal(w: World, p: Function, op: Op) {
    match op
    case Build(f, _) => f !in w.holds
    case CopyBuild(f, g) => f !in w.holds && g in w.holds && g != p
    case MoveBuild(f, g) => f !in w.holds && g in w.holds && g != p
    case CopyAssign(f, g) => f in w.holds && g in w.holds && f != p && g != p
    case MoveAssign(f, g) => f in w.holds && g in w.holds && f != p && g != p
    case PointerAssign(f, _) => f in w.holds && f != p
    case Destroy(f) => f in w.holds && f != p
    case Dispatch(f, qs) =>
      && f in w.holds && f != p && w.holds[f].Some? && Dispatched(w, f, p, qs).Some?
      && forall i :: 0 <= i < |qs| ==> !MovesFrom(qs[i], f)
  }

  ghost function Apply(w: World, p: Function, op: Op): World
    requires Legal(w, p, op)
  {
    match op
    case Build(f, c) => Made(w, f, c)
    case CopyBuild(f, g) => CopiedInto(w, f, g)
    case MoveBuild(f, g) => MovedInto(w, f, g)
    case CopyAssign(f, g) => CopyAssigned(w, f, g)
    case MoveAssign(f, g) => MoveAssigned(w, f, g)
    case PointerAssign(f, c) => PointerAssigned(w, f, c)
    case Destroy(f) => Dropped(w, f)
    case Dispatch(f, qs) => Dispatched(w, f, p, qs).value
  }

  /** The same operation on plain variables. */
  function PlainApply(v: Vars, op: Op): Vars {
    match op
    case Build(f, c) => v[f := c]
    case CopyBuild(f, g) => if g in v then v[f := v[g]] else v
    case MoveBuild(f, g) => if g in v then v[f := v[g]][g := None] else v
    case CopyAssign(f, g) => if g in v then v[f := v[g]] else v
    case MoveAssign(f, g) => if f in v && g in v then PlainMove(v, f, g) else v
    case PointerAssign(f, c) => v[f := c]
    case Destroy(f) => v - {f}
    case Dispatch(_, qs) => PlainRequests(v, qs)
  }

  /** The wrappers but one, value by value. */
  lemma ShowsVars(w: World, p: Function, v: Vars)
    requires v.Keys == w.holds.Keys - {p}
    requires forall f :: f in v ==> v[f] == Value(w, f)
    ensures VarsExcept(w, p) == v
  {
  }

  lemma BuildIsPlain(w: World, p: Function, f: Function, c: Option<Callable>)
    requires Quiet(w, p) && Legal(w, p, Build(f, c))
    ensures var r := Apply(w, p, Build(f, c));
            Quiet(r, p) && VarsExcept(r, p) == PlainApply(VarsExcept(w, p), Build(f, c))
  {
    MadeIs(w, f, c);
    PendingUntouched(w, p, Build(f, c));
    hide Sound, Value, Made, MovedInto, CopyAssigned, MoveAssigned, PointerAssigned, Dropped;
    ShowsVars(Apply(w, p, Build(f, c)), p, VarsExcept(w, p)[f := c]);
  }

  lemma CopyBuildIsPlain(w: World, p: Function, f: Function, g: Function)
    requires Quiet(w, p) && Legal(w, p, CopyBuild(f, g))
    ensures var r := Apply(w, p, CopyBuild(f, g));
            Quiet(r, p) && VarsExcept(r, p) == PlainApply(VarsExcept(w, p), CopyBuild(f, g))
  {
    MadeIs(w, f, Value(w, g));
    PendingUntouched(w, p, CopyBuild(f, g));
    hide Sound, Value, Made, MovedInto, CopyAssigned, MoveAssigned, PointerAssigned, Dropped;
    ShowsVars(Apply(w, p, CopyBuild(f, g)), p, VarsExcept(w, p)[f := Value(w, g)]);
  }

  lemma MoveBuildIsPlain(w: World, p: Function, f: Function, g: Function)
    requires Quiet(w, p) && Legal(w, p, MoveBuild(f, g))
    ensures var r := Apply(w, p, MoveBuild(f, g));
            Quiet(r, p) && VarsExcept(r, p) == PlainApply(VarsExcept(w, p), MoveBuild(f, g))
  {
    MoveMadeIs(w, f, g);
    PendingUntouched(w, p, MoveBuild(f, g));
    hide Sound, Value, Made, MovedInto, CopyAssigned, MoveAssigned, PointerAssigned, Dropped;
    ShowsVars(Apply(w, p, MoveBuild(f, g)), p, VarsExcept(w, p)[f := Value(w, g)][g := None]);
  }

  lemma CopyAssignIsPlain(w: World, p: Function, f: Function, g: Function)
    requires Quiet(w, p) && Legal(w, p, CopyAssign(f, g))
    ensures var r := Apply(w, p, CopyAssign(f, g));
            Quiet(r, p) && VarsExcept(r, p) == PlainApply(VarsExcept(w, p), CopyAssign(f, g))
  {
    CopyAssignedIs(w, f, g);
    PendingUntouched(w, p, CopyAssign(f, g));
    hide Sound, Value, Made, MovedInto, CopyAssigned, MoveAssigned, PointerAssigned, Dropped;
    ShowsVars(Apply(w, p, CopyAssign(f, g)), p, VarsExcept(w, p)[f := Value(w, g)]);
  }

  lemma MoveAssignIsPlain(w: World, p: Function, f: Function, g: Function)
    requires Quiet(w, p) && Legal(w, p, MoveAssign(f, g))
    ensures var r := Apply(w, p, MoveAssign(f, g));
            Quiet(r, p) && VarsExcept(r, p) == PlainApply(VarsExcept(w, p), MoveAssign(f, g))
  {
    MoveAssignedIs(w, f, g);
    PendingUntouched(w, p, MoveAssign(f, g));
    hide Sound, Value, Made, MovedInto, CopyAssigned, MoveAssigned, PointerAssigned, Dropped;
    ShowsVars(Apply(w, p, MoveAssign(f, g)), p, PlainMove(VarsExcept(w, p), f, g));
  }

  lemma PointerAssignIsPlain(w: World, p: Function, f: Function, c: Option<Callable>)
    requires Quiet(w, p) && Legal(w, p, PointerAssign(f, c))
    ensures var r := Apply(w, p, PointerAssign(f, c));
            Quiet(r, p) && VarsExcept(r, p) == PlainApply(VarsExcept(w, p), PointerAssign(f, c))
  {
    PointerAssignedIs(w, f, c);
    PendingUntouched(w, p, PointerAssign(f, c));
    hide Sound, Value, Made, MovedInto, CopyAssigned, MoveAssigned, PointerAssigned, Dropped;
    ShowsVars(Apply(w, p, PointerAssign(f, c)), p, VarsExcept(w, p)[f := c]);
  }

  lemma DestroyIsPlain(w: World, p: Function, f: Function)
    requires Quiet(w, p) && Legal(w, p, Destroy(f))
    ensures var r := Apply(w, p, Destroy(f));
            Quiet(r, p) && VarsExcept(r, p) == PlainApply(VarsExcept(w, p), Destroy(f))
  {
    DroppedIs(w, f);
    PendingUntouched(w, p, Destroy(f));
    hide Sound, Value, Made, MovedInto, CopyAssigned, MoveAssigned, PointerAssigned, Dropped;
    ShowsVars(Apply(w, p, Destroy(f)), p, VarsExcept(w, p) - {f});
  }

  lemma DispatchOpIsPlain(w: World, p: Function, f: Function, qs: seq<Request>)
    requires Quiet(w, p) && Legal(w, p, Dispatch(f, qs))
    ensures var r := Apply(w, p, Dispatch(f, qs));
            Quiet(r, p) && VarsExcept(r, p) == PlainApply(VarsExcept(w, p), Dispatch(f, qs))
  {
    DispatchIsPlain(w, f, p, qs);
  }

  lemma PendingUntouched(w: World, p: Function, op: Op)
    requires p in w.holds && w.executing == None && Legal(w, p, op) && !op.Dispatch?
    ensures var r := Apply(w, p, op);
            p in r.holds && r.holds[p] == w.holds[p] && r.killedRunning == w.killedRunning
  {
    hide Sound, Quiet, Dispatched;
  }

  lemma StepIsPlain(w: World, p: Function, op: Op)
    requires Quiet(w, p) && Legal(w, p, op)
    ensures Quiet(Apply(w, p, op), p) && VarsExcept(Apply(w, p, op), p) == PlainApply(VarsExcept(w, p), op)
  {
    hide Quiet, Legal, Apply, PlainApply;
    match op {
      case Build(f, c) => BuildIsPlain(w, p, f, c);
      case CopyBuild(f, g) => CopyBuildIsPlain(w, p, f, g);
      case MoveBuild(f, g) => MoveBuildIsPlain(w, p, f, g);
      case CopyAssign(f, g) => CopyAssignIsPlain(w, p, f, g);
      case MoveAssign(f, g) => MoveAssignIsPlain(w, p, f, g);
      case PointerAssign(f, c) => PointerAssignIsPlain(w, p, f, c);
      case Destroy(f) => DestroyIsPlain(w, p, f);
      case Dispatch(f, qs) => DispatchOpIsPlain(w, p, f, qs);
    }
  }

  function PlainRun(v: Vars, ops: seq<Op>): Vars
    decreases |ops|
  {
    if ops == [] then v else PlainRun(PlainApply(v, ops[0]), ops[1..])
  }

  ghost predicate Execution(w: World, p: Function, ops: seq<Op>, t: World)
    decreases |ops|
  {
    if ops == [] then w == t
    else Legal(w, p, ops[0]) && Execution(Apply(w, p, ops[0]), p, ops[1..], t)
  }

  lemma {:induction false} RunIsPlain(w: World, p: Function, ops: seq<Op>, t: World)
    requires Quiet(w, p) && Execution(w, p, ops, t)
    ensures Quiet(t, p) && VarsExcept(t, p) == PlainRun(VarsExcept(w, p), ops)
    decreases |ops|
  {
    hide Quiet, Legal, Apply, PlainApply;
    if ops != [] {
      StepIsPlain(w, p, ops[0]);
      RunIsPlain(Apply(w, p, ops[0]), p, ops[1..], t);
    }
  }

  /** Over every run of wrappers and dispatches from scratch: no callable was destroyed twice or while executing; the
      wrappers hold what plain variables would; and once every wrapper is gone each callable ever constructed has been
      destroyed exactly once. */
  lemma CallablesAreDestroyedOnce(p: Function, ops: seq<Op>, t: World)
    requires Execution(EMPTY.(holds := map[p := None]), p, ops, t)
    ensures !t.killedRunning && VarsExcept(t, p) == PlainRun(map[], ops)
    ensures forall i, j :: 0 <= i < j < |t.ended| ==> t.ended[i] != t.ended[j]
    ensures forall id: nat :: id < |t.objects| ==>
              (id in t.ended <==> !exists f :: f in t.holds && t.holds[f] == Some(id))
    ensures t.holds.Keys == {p} ==> forall id: nat :: id < |t.objects| <==> id in t.ended
  {
    var w := EMPTY.(holds := map[p := None]);
    assert VarsExcept(w, p) == map[];
    RunIsPlain(w, p, ops, t);
    forall id: nat | id < |t.objects|
      ensures id in t.ended <==> !exists f :: f in t.holds && t.holds[f] == Some(id)
    {
      assert Alive(t, id) ==> t.objects[id].home in t.holds;
      assert forall f :: f in t.holds && t.holds[f] == Some(id) ==> Alive(t, id);
    }
  }

  // ----- the objects -----

  /** Construction and destruction of callables, as the inline storages see it. */
  class Memory {
    var objects: seq<Object>
    var ended: seq<nat>
    var executing: Option<nat>
    var killedRunning: bool

    method New(home: Function, c: Callable) returns (id: nat)
      modifies `objects
      ensures id == |old(objects)| && objects == old(objects) + [Object(c, home)]
    {
      id := |objects|;
      objects := objects + [Object(c, home)];
    }

    method End(id: nat)
      modifies `ended, `killedRunning
      ensures ended == old(ended) + [id]
      ensures killedRunning == (old(killedRunning) || executing == Some(id))
    {
      ended := ended + [id];
      killedRunning := killedRunning || executing == Some(id);
    }
  }

  ghost predicate Shows(w: World, memory: Memory)
    reads memory, w.holds.Keys
  {
    && memory.objects == w.objects && memory.ended == w.ended
    && memory.executing == w.executing && memory.killedRunning == w.killedRunning
    && forall f :: f in w.holds ==> f.held == w.holds[f]
  }

  lemma HeldExists(w: World, f: Function)
    requires Sound(w) && f in w.holds
    ensures w.holds[f].Some? ==> w.holds[f].value < |w.objects|
  {
    assert w.holds[f].Some? ==> Alive(w, w.holds[f].value);
  }

  /** A wrapper's storage; `held` is Some while the four function pointers are set. */
  class Function {
    var held: Option<nat>

    method Construct(c: Option<Callable>, memory: Memory, ghost w: World)
      requires Shows(w, memory) && this !in w.holds
      modifies this, memory
      ensures Shows(Made(w, this, c), memory)
    {
      held := None;
      if c.Some? {
        var id := memory.New(this, c.value);
        held := Some(id);
      }
    }

    method CopyConstruct(other: Function, memory: Memory, ghost w: World)
      requires Shows(w, memory) && Sound(w) && this !in w.holds && other in w.holds
      modifies this, memory
      ensures Shows(CopiedInto(w, this, other), memory)
    {
      HeldExists(w, other);
      CopyFrom(other, memory);
    }

    method MoveConstruct(other: Function, memory: Memory, ghost w: World)
      requires Shows(w, memory) && Sound(w) && this !in w.holds && other in w.holds
      modifies this, other, memory
      ensures Shows(MovedInto(w, this, other), memory)
    {
      HeldExists(w, other);
      MoveFrom(other, memory);
    }

    method CopyAssignFrom(other: Function, memory: Memory, ghost w: World)
      requires Shows(w, memory) && Sound(w) && this in w.holds && other in w.holds
      modifies this, memory
      ensures Shows(CopyAssigned(w, this, other), memory)
    {
      if this != other {
        HeldExists(w, other);
        if held.Some? {
          memory.End(held.value);
        }
        CopyFrom(other, memory);
      }
    }

    method MoveAssignFrom(other: Function, memory: Memory, ghost w: World)
      requires Shows(w, memory) && Sound(w) && this in w.holds && other in w.holds
      modifies this, other, memory
      ensures Shows(MoveAssigned(w, this, other), memory)
    {
      if this != other {
        HeldExists(w, other);
        if held.Some? {
          memory.End(held.value);
        }
        MoveFrom(other, memory);
      }
    }

    method AssignPointer(c: Option<Callable>, memory: Memory, ghost w: World)
      requires Shows(w, memory) && this in w.holds
      modifies this, memory
      ensures Shows(PointerAssigned(w, this, c), memory)
    {
      if held.Some? {
        memory.End(held.value);
      }
      held := None;
      if c.Some? {
        var id := memory.New(this, c.value);
        held := Some(id);
      }
    }

    /** The destructor. */
    method Destruct(memory: Memory, ghost w: World)
      requires Shows(w, memory) && this in w.holds
      modifies memory
      ensures Shows(Dropped(w, this), memory)
    {
      if held.Some? {
        memory.End(held.value);
      }
    }

    /** Takes over the other's function pointers and copies its callable. */
    method CopyFrom(other: Function, memory: Memory)
      requires this != other && (other.held.Some? ==> other.held.value < |memory.objects|)
      modifies this, memory`objects
      ensures match other.held
              case None => held == None && memory.objects == old(memory.objects)
              case Some(id) =>
                && held == Some(|old(memory.objects)|)
                && memory.objects == old(memory.objects) + [Object(old(memory.objects)[id].value, this)]
    {
      held := None;
      if other.held.Some? {
        var id := memory.New(this, memory.objects[other.held.value].value);
        held := Some(id);
      }
    }

    /** Takes over the other's function pointers, moves its callable and leaves the other empty. */
    method MoveFrom(other: Function, memory: Memory)
      requires this != other && (other.held.Some? ==> other.held.value < |memory.objects|)
      modifies this, other, memory
      ensures other.held == None && memory.executing == old(memory.executing)
      ensures match old(other.held)
              case None =>
                && held == None && memory.objects == old(memory.objects) && memory.ended == old(memory.ended)
                && memory.killedRunning == old(memory.killedRunning)
              case Some(id) =>
                && held == Some(|old(memory.objects)|)
                && memory.objects == old(memory.objects) + [Object(old(memory.objects)[id].value, this)]
                && memory.ended == old(memory.ended) + [id]
                && memory.killedRunning == (old(memory.killedRunning) || old(memory.executing) == Some(id))
    {
      held := None;
      if other.held.Some? {
        var id := memory.New(this, memory.objects[other.held.value].value);
        memory.End(other.held.value);
        held := Some(id);
      }
      other.held := None;
    }
  }

  /** The temporaries a callback makes. */
  function Makes(qs: seq<Request>): set<Function> {
    set i | 0 <= i < |qs| && qs[i].Make? :: qs[i].f
  }

  lemma MakesOne(q: Request)
    ensures Makes([q]) == if q.Make? then {q.f} else {}
  {
    if q.Make? {
      assert [q][0] == q;
    }
  }

  lemma BegunSound(w: World, r: Function)
    requires Sound(w) && r in w.holds
    ensures Sound(Begun(w, r))
  {
    assert forall k: nat :: Alive(Begun(w, r), k) <==> Alive(w, k);
  }

  lemma {:induction false} ScriptKeepsSound(w: World, r: Function, p: Function, qs: seq<Request>)
    requires Sound(w) && r != p && p in w.holds && r in w.holds && RunRequests(w, r, p, qs).Some?
    ensures var m := RunRequests(w, r, p, qs).value.0; Sound(m) && p in m.holds && r in m.holds
  {
    hide Sound, Requested, Allowed;
    if qs != [] {
      var front := qs[..|qs| - 1];
      ScriptKeepsSound(w, r, p, front);
      var (m, d) := RunRequests(w, r, p, front).value;
      RequestKeepsSound(m, d, r, p, qs[|qs| - 1]);
    }
  }

  lemma {:induction false} HoldsWithin(w: World, r: Function, p: Function, qs: seq<Request>)
    requires Sound(w) && r != p && p in w.holds && r in w.holds && RunRequests(w, r, p, qs).Some?
    ensures RunRequests(w, r, p, qs).value.0.holds.Keys <= w.holds.Keys + Makes(qs)
  {
    if qs != [] {
      var front, q := qs[..|qs| - 1], qs[|qs| - 1];
      HoldsWithin(w, r, p, front);
      ScriptKeepsSound(w, r, p, front);
      var (m, d) := RunRequests(w, r, p, front).value;
      assert Makes(front) <= Makes(qs);
      KeysGrow(m, d, r, p, q);
    }
  }

  lemma KeysGrow(w: World, d: Deferred, r: Function, p: Function, q: Request)
    requires p in w.holds && Allowed(w, r, p, q)
    ensures Requested(w, r, p, d, q).0.holds.Keys <= w.holds.Keys + if q.Make? then {q.f} else {}
  {
  }

  lemma {:induction false} PrefixAllowed(w: World, r: Function, p: Function, qs: seq<Request>, i: nat)
    requires i <= |qs| && RunRequests(w, r, p, qs).Some?
    ensures RunRequests(w, r, p, qs[..i]).Some?
  {
    if i < |qs| {
      PrefixAllowed(w, r, p, qs[..|qs| - 1], i);
      assert qs[..|qs| - 1][..i] == qs[..i];
    } else {
      assert qs[..i] == qs;
    }
  }

  /** The `i`-th request of a script that is allowed as a whole. */
  lemma NothingRequested(w: World, r: Function, p: Function, qs: seq<Request>)
    ensures RunRequests(w, r, p, qs[..0]) == Some((w, NoAction))
  {
    assert qs[..0] == [];
  }

  lemma StepOfScript(w: World, r: Function, p: Function, qs: seq<Request>, i: nat)
    requires Sound(w) && r != p && p in w.holds && r in w.holds && RunRequests(w, r, p, qs).Some? && i < |qs|
    ensures RunRequests(w, r, p, qs[..i]).Some?
    ensures var (m, d) := RunRequests(w, r, p, qs[..i]).value;
            && Sound(m) && p in m.holds && Allowed(m, r, p, qs[i])
            && RunRequests(w, r, p, qs[..i + 1]) == Some(Requested(m, r, p, d, qs[i]))
            && m.holds.Keys <= w.holds.Keys + Makes(qs)
            && Makes([qs[i]]) <= Makes(qs)
  {
    PrefixAllowed(w, r, p, qs, i);
    PrefixAllowed(w, r, p, qs, i + 1);
    assert qs[..i + 1][..i] == qs[..i];
    ScriptKeepsSound(w, r, p, qs[..i]);
    HoldsWithin(w, r, p, qs[..i]);
    MakesOne(qs[i]);
    assert Makes(qs[..i]) <= Makes(qs);
  }

  class CallbackDispatcher {
    const pending: Function
    var running: Function?
    var action: Deferred

    constructor (pending: Function)
      ensures this.pending == pending && running == null && action == NoAction
    {
      this.pending := pending;
      running, action := null, NoAction;
    }

    method RequestReplace(target: Function, next: Function, memory: Memory, ghost w: World)
      requires Shows(w, memory) && Sound(w) && pending in w.holds && target in w.holds && next in w.holds
      modifies `action, target, next, pending, memory
      ensures running == target ==> Shows(MoveAssigned(w, pending, next), memory) && action == DoReplace
      ensures running != target ==> Shows(MoveAssigned(w, target, next), memory) && action == old(action)
    {
      if running == target {
        pending.MoveAssignFrom(next, memory, w);
        action := DoReplace;
      } else {
        target.MoveAssignFrom(next, memory, w);
      }
    }

    method RequestClear(target: Function, memory: Memory, ghost w: World)
      requires Shows(w, memory) && pending in w.holds && target in w.holds
      modifies `action, target, pending, memory
      ensures running == target ==> Shows(PointerAssigned(w, pending, None), memory) && action == DoClear
      ensures running != target ==> Shows(PointerAssigned(w, target, None), memory) && action == old(action)
    {
      if running == target {
        pending.AssignPointer(None, memory, w);
        action := DoClear;
      } else {
        target.AssignPointer(None, memory, w);
      }
    }

    /** One thing the running callback does. */
    method Perform(q: Request, r: Function, memory: Memory, ghost w: World)
      requires Shows(w, memory) && Sound(w) && pending in w.holds && running == r && Allowed(w, r, pending, q)
      modifies `action, memory, w.holds.Keys, Makes([q])
      ensures var (m, d) := Requested(w, r, pending, old(action), q); Shows(m, memory) && action == d
    {
      MakesOne(q);
      match q {
        case Make(f, c) => f.Construct(c, memory, w);
        case Drop(f) => f.Destruct(memory, w);
        case Replace(t, n) => RequestReplace(t, n, memory, w);
        case Clear(t) => RequestClear(t, memory, w);
      }
    }

    /** The call of the stored callable, given by the requests it makes. */
    method RunScript(target: Function, script: seq<Request>, memory: Memory, ghost w: World)
      requires Shows(w, memory) && Sound(w) && pending in w.holds && target in w.holds && target != pending
      requires running == target && action == NoAction && RunRequests(w, target, pending, script).Some?
      modifies `action, memory, w.holds.Keys, Makes(script)
      ensures var (m, d) := RunRequests(w, target, pending, script).value; Shows(m, memory) && action == d
    {
      ghost var m, d := w, NoAction;
      var i := 0;
      hide *;
      NothingRequested(w, target, pending, script);
      while i < |script|
        invariant 0 <= i <= |script|
        invariant action == d
        invariant RunRequests(w, target, pending, script[..i]) == Some((m, d)) && Shows(m, memory)
      {
        StepOfScript(w, target, pending, script, i);
        Perform(script[i], target, memory, m);
        ghost var next := Requested(m, target, pending, d, script[i]);
        m, d := next.0, next.1;
        i := i + 1;
      }
      assert script[..i] == script;
    }

    /** Runs the callback in `target`, then applies what it asked for itself. */
    method Invoke(target: Function, script: seq<Request>, memory: Memory, ghost w: World)
      requires Shows(w, memory) && Quiet(w, pending) && target in w.holds && target != pending && w.holds[target].Some?
      requires Dispatched(w, target, pending, script).Some?
      modifies this, memory, w.holds.Keys, Makes(script)
      ensures Shows(Dispatched(w, target, pending, script).value, memory)
      ensures running == null && action == NoAction
    {
      ghost var b := Begun(w, target);
      BegunSound(w, target);
      ScriptKeepsSound(b, target, pending, script);
      HoldsWithin(b, target, pending, script);
      ghost var (m, d) := RunRequests(b, target, pending, script).value;
      Returned(m);
      hide Sound, Quiet, RunRequests, MoveAssigned, PointerAssigned, Makes;
      running := target;
      action := NoAction;
      memory.executing := target.held;
      RunScript(target, script, memory, b);
      running := null;
      memory.executing := None;
      ApplyDeferred(target, memory, m.(executing := None));
      action := NoAction;
    }

    /** What the callback asked for itself, once it has returned. */
    method ApplyDeferred(target: Function, memory: Memory, ghost done: World)
      requires Shows(done, memory) && Sound(done) && done.executing == None
      requires target in done.holds && pending in done.holds
      modifies target, pending, memory
      ensures Shows(Settled(done, target, pending, action), memory)
    {
      if action == DoReplace {
        target.MoveAssignFrom(pending, memory, done);
      } else if action == DoClear {
        target.AssignPointer(None, memory, done);
      }
    }
  }
}
