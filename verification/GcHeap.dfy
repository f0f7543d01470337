/** The collected heap: objects with their mark bits, what they refer to, and what a program can reach. */
module GcHeap {
  type Id = nat

  datatype Option<T> = None | Some(value: T)

  // ---------- mark bits ----------

  /** The `marked` byte, one field a bit.  Bit 3 of a userdata: finalized; bits 3 and 4 of a table:
      weak keys, weak values. */
  datatype Mark = Mark(white0: bool, white1: bool, black: bool, bit3: bool, bit4: bool, fixed: bool, superFixed: bool)

  predicate IsWhite(m: Mark) { m.white0 || m.white1 }
  predicate IsBlack(m: Mark) { m.black }
  predicate IsGray(m: Mark) { !IsBlack(m) && !IsWhite(m) }

  function WhiteToGray(m: Mark): Mark { m.(white0 := false, white1 := false) }
  function BlackToGray(m: Mark): Mark { m.(black := false) }
  function GrayToBlack(m: Mark): Mark { m.(black := true) }
  function ChangeWhite(m: Mark): Mark { m.(white0 := !m.white0, white1 := !m.white1) }

  /** The mask of the other white: only the two white bits of the current one are flipped. */
  function OtherWhite(current: Mark): Mark { ChangeWhite(current) }

  function MakeWhite(current: Mark, m: Mark): Mark { m.(white0 := current.white0, white1 := current.white1, black := false) }

  predicate IsDead(current: Mark, m: Mark) {
    var other := OtherWhite(current);
    (m.white0 && other.white0) || (m.white1 && other.white1)
  }

  /** The sweep keeps what differs from the mask in a white bit it has, or shares another bit with it. */
  predicate Survives(mask: Mark, m: Mark) {
    || (mask.white0 && !m.white0) || (mask.white1 && !m.white1) || (mask.black && m.black) || (mask.bit3 && m.bit3)
    || (mask.bit4 && m.bit4) || (mask.fixed && m.fixed) || (mask.superFixed && m.superFixed)
  }

  /** A new object carries the white bits of the current white and nothing else. */
  function NewMark(current: Mark): Mark { Mark(current.white0, current.white1, false, false, false, false, false) }

  // ---------- objects ----------

  /** A tagged value: nil, something not collected, a reference, or (as a key) a dead key. */
  datatype Value = Nil | Plain(n: int) | DeadKey | Ref(id: Id)

  datatype Node = Node(key: Value, val: Value)

  /** What the metatable of a table says about weakness. */
  datatype Mode = Mode(weakKey: bool, weakValue: bool)

  datatype Body =
    | Str
    | Userdata(metatable: Option<Id>, env: Id)
    | Table(metatable: Option<Id>, mode: Mode, items: seq<Value>, nodes: seq<Node>)
    | Closure(env: Id, proto: Option<Id>, upvals: seq<Value>)
    | Proto(names: seq<Id>, constants: seq<Value>, protos: seq<Id>)
    | UpVal(value: Value)
    | Thread(globals: Value, stack: seq<Value>)

  datatype Object = Object(mark: Mark, body: Body)

  type Heap = map<Id, Object>

  /** The kinds that go through the gray list. */
  predicate Queued(b: Body) { b.Table? || b.Closure? || b.Proto? || b.Thread? }

  // ---------- references ----------

  function OptIds(o: Option<Id>): seq<Id> { if o.Some? then [o.value] else [] }

  function ValueIds(v: Value): seq<Id> { if v.Ref? then [v.id] else [] }

  /** The values of an array part, in the order the collector visits them: from the end. */
  function ValuesIds(vs: seq<Value>): seq<Id> {
    if vs == [] then [] else ValueIds(vs[|vs| - 1]) + ValuesIds(vs[..|vs| - 1])
  }

  function NodeIds(n: Node, keys: bool, vals: bool): seq<Id> {
    if n.val.Nil? then [] else (if keys then ValueIds(n.key) else []) + (if vals then ValueIds(n.val) else [])
  }

  function NodesIds(ns: seq<Node>, keys: bool, vals: bool): seq<Id> {
    if ns == [] then [] else NodeIds(ns[|ns| - 1], keys, vals) + NodesIds(ns[..|ns| - 1], keys, vals)
  }

  /** What the two parts of a table hold on to under a given mode. */
  function PartIds(b: Body, m: Mode): seq<Id>
    requires b.Table?
  {
    (if m.weakValue then [] else ValuesIds(b.items)) + NodesIds(b.nodes, !m.weakKey, !m.weakValue)
  }

  function TableIds(b: Body, m: Mode): seq<Id>
    requires b.Table?
  {
    OptIds(b.metatable) + PartIds(b, m)
  }

  const STRONG := Mode(false, false)

  /** Everything a program can get to from an object in one step. */
  function Refs(b: Body): seq<Id> {
    match b
    case Str => []
    case Userdata(mt, env) => OptIds(mt) + [env]
    case Table(_, _, _, _) => TableIds(b, STRONG)
    case Closure(env, proto, upvals) => [env] + OptIds(proto) + ValuesIds(upvals)
    case Proto(names, constants, protos) => names + ValuesIds(constants) + protos
    case UpVal(v) => ValueIds(v)
    case Thread(globals, stack) => ValueIds(globals) + ValuesIds(stack)
  }

  /** What an object keeps alive: a weak table only what its mode leaves strong. */
  function StrongRefs(b: Body): seq<Id> {
    if b.Table? then TableIds(b, b.mode) else Refs(b)
  }

  lemma {:induction false} ValuesIdsAre(vs: seq<Value>, id: Id)
    ensures id in ValuesIds(vs) <==> Ref(id) in vs
  {
    if vs != [] {
      ValuesIdsAre(vs[..|vs| - 1], id);
      assert vs == vs[..|vs| - 1] + [vs[|vs| - 1]];
    }
  }

  lemma {:induction false} NodesIdsAre(ns: seq<Node>, keys: bool, vals: bool, id: Id)
    ensures id in NodesIds(ns, keys, vals) <==> exists i :: 0 <= i < |ns| && id in NodeIds(ns[i], keys, vals)
  {
    hide NodeIds;
    if ns != [] {
      var rest := ns[..|ns| - 1];
      NodesIdsAre(rest, keys, vals, id);
      assert forall i :: 0 <= i < |rest| ==> rest[i] == ns[i];
      if id in NodeIds(ns[|ns| - 1], keys, vals) {
      } else if i :| 0 <= i < |ns| && id in NodeIds(ns[i], keys, vals) {
        assert i < |rest| && id in NodeIds(rest[i], keys, vals);
      }
    }
  }

  /** What an object keeps alive is part of what it refers to. */
  lemma StrongIsPart(b: Body, id: Id)
    requires id in StrongRefs(b)
    ensures id in Refs(b)
  {
    if b.Table? && id in NodesIds(b.nodes, !b.mode.weakKey, !b.mode.weakValue) {
      NodesIdsAre(b.nodes, !b.mode.weakKey, !b.mode.weakValue, id);
      var i :| 0 <= i < |b.nodes| && id in NodeIds(b.nodes[i], !b.mode.weakKey, !b.mode.weakValue);
      assert id in NodeIds(b.nodes[i], true, true);
      NodesIdsAre(b.nodes, true, true, id);
    }
  }

  // ---------- the state of the collector ----------

  datatype Phase = Pause | Propagate | SweepString | Sweep | Finalize

  /** rootgc lists all objects but the strings, the userdata after the main thread; sweepgc is the
      number of objects before the sweep pointer; strt is the string table. */
  datatype Gc = Gc(
    heap: Heap,
    gray: seq<Id>, grayagain: seq<Id>, weak: seq<Id>,
    rootgc: seq<Id>, sweepgc: nat,
    strt: seq<seq<Id>>, sweepstrgc: nat,
    currentwhite: Mark, phase: Phase,
    mainthread: Id, registry: Id, mt: seq<Option<Id>>, running: Id)

  predicate White(h: Heap, o: Id) { o in h && IsWhite(h[o].mark) }
  predicate Alive(g: Gc, o: Id) { o in g.heap && !IsDead(g.currentwhite, g.heap[o].mark) }

  function SetMark(h: Heap, o: Id, m: Mark): (r: Heap)
    requires o in h
    ensures r.Keys == h.Keys
  {
    h[o := h[o].(mark := m)]
  }

  function SetBody(h: Heap, o: Id, b: Body): (r: Heap)
    requires o in h
    ensures r.Keys == h.Keys
  {
    h[o := h[o].(body := b)]
  }

  function OptsIds(s: seq<Option<Id>>): seq<Id> {
    if s == [] then [] else OptIds(s[0]) + OptsIds(s[1..])
  }

  /** Where every path of the program starts. */
  function Roots(g: Gc): seq<Id> { [g.mainthread, g.registry, g.running] + OptsIds(g.mt) }

  // ---------- reachability ----------

  predicate Link(h: Heap, o: Id, r: Id, strong: bool) {
    o in h && r in (if strong then StrongRefs(h[o].body) else Refs(h[o].body))
  }

  /** path leads from one of the given objects to o. */
  predicate PathFrom(h: Heap, from: seq<Id>, path: seq<Id>, o: Id, strong: bool)
    decreases |path|
  {
    && path != [] && path[|path| - 1] == o
    && (if |path| == 1 then o in from
        else PathFrom(h, from, path[..|path| - 1], path[|path| - 2], strong) && Link(h, path[|path| - 2], o, strong))
  }

  /** A program can get hold of o. */
  ghost predicate Reachable(g: Gc, o: Id) { exists path :: PathFrom(g.heap, Roots(g), path, o, false) }

  /** o is kept alive from the roots, by references that are not weak. */
  ghost predicate StrongReachable(g: Gc, o: Id) { exists path :: PathFrom(g.heap, Roots(g), path, o, true) }

  /** A set that contains the starts of a path and is closed under its steps contains its end. */
  lemma {:induction false} PathStays(h: Heap, from: seq<Id>, path: seq<Id>, o: Id, strong: bool, s: iset<Id>)
    requires PathFrom(h, from, path, o, strong)
    requires forall id :: id in from ==> id in s
    requires forall id, r :: id in s && Link(h, id, r, strong) ==> r in s
    ensures o in s
    decreases |path|
  {
    if |path| > 1 {
      PathStays(h, from, path[..|path| - 1], path[|path| - 2], strong, s);
    }
  }

  /** A path can be followed one step further. */
  lemma PathExtends(h: Heap, from: seq<Id>, path: seq<Id>, o: Id, strong: bool, r: Id)
    requires PathFrom(h, from, path, o, strong) && Link(h, o, r, strong)
    ensures PathFrom(h, from, path + [r], r, strong)
  {
    assert (path + [r])[..|path|] == path;
  }

  lemma RootReachable(g: Gc, o: Id)
    requires o in Roots(g)
    ensures Reachable(g, o) && StrongReachable(g, o)
  {
    assert PathFrom(g.heap, Roots(g), [o], o, false) && PathFrom(g.heap, Roots(g), [o], o, true);
  }

  lemma StrongStep(g: Gc, o: Id, r: Id)
    requires StrongReachable(g, o) && Link(g.heap, o, r, true)
    ensures StrongReachable(g, r)
  {
    var path :| PathFrom(g.heap, Roots(g), path, o, true);
    PathExtends(g.heap, Roots(g), path, o, true, r);
  }

  lemma {:induction false} StrongPath(h: Heap, from: seq<Id>, path: seq<Id>, o: Id)
    requires PathFrom(h, from, path, o, true)
    ensures PathFrom(h, from, path, o, false)
    decreases |path|
  {
    if |path| > 1 {
      StrongPath(h, from, path[..|path| - 1], path[|path| - 2]);
      StrongIsPart(h[path[|path| - 2]].body, o);
    }
  }

  /** What is kept alive can be reached. */
  lemma StrongIsReachable(g: Gc, o: Id)
    requires StrongReachable(g, o)
    ensures Reachable(g, o)
  {
    var path :| PathFrom(g.heap, Roots(g), path, o, true);
    StrongPath(g.heap, Roots(g), path, o);
  }
}
