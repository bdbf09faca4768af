/**
 filter/values.go: tool payloads as they are kept, nested maps and slices that are walked and changed in
 place. The shape of a payload names its containers; they form a tree.
 */
module Values {
  import opened Table
  import opened Unredaction
  import opened Pieces
  import opened NameGen
  import opened UniqueNames
  import opened Email
  import opened PiiLaws
  import opened PiiFilter
  import opened Payload
  import opened Visits

  class JsonMap {
    var entries: map<string, Json>

    constructor (entries: map<string, Json>)
      ensures this.entries == entries
    {
      this.entries := entries;
    }
  }

  class StringMap {
    var entries: map<string, string>

    constructor (entries: map<string, string>)
      ensures this.entries == entries
    {
      this.entries := entries;
    }
  }

  datatype Json =
    | JStr(s: string)
    | JMap(m: JsonMap)
    | JSlice(a: array<Json>)
    | JStrMap(sm: StringMap)
    | JStrSlice(sa: array<string>)
    | JOther(id: int)

  /** The containers of a payload, each with the containers inside it. */
  datatype Shape =
    | Flat
    | MapShape(m: JsonMap, kids: map<string, Shape>, inner: set<object>)
    | SliceShape(a: array<Json>, parts: seq<Shape>, inner: set<object>)
    | StrMapShape(sm: StringMap)
    | StrSliceShape(sa: array<string>)

  /** All containers of a payload. */
  ghost function Objs(sh: Shape): set<object>
  {
    match sh
    case Flat => {}
    case MapShape(m, _, inner) => {m} + inner
    case SliceShape(a, _, inner) => {a} + inner
    case StrMapShape(sm) => {sm}
    case StrSliceShape(sa) => {sa}
  }

  /** No container is reached twice. */
  ghost predicate Apart(sh: Shape)
  {
    match sh
    case Flat => true
    case MapShape(m, kids, inner) =>
      && m !in inner
      && (forall k :: k in kids ==> Objs(kids[k]) <= inner && Apart(kids[k]))
      && (forall k, l :: k in kids && l in kids && k != l ==> Objs(kids[k]) !! Objs(kids[l]))
    case SliceShape(a, parts, inner) =>
      && a !in inner
      && (forall i :: 0 <= i < |parts| ==> Objs(parts[i]) <= inner && Apart(parts[i]))
      && (forall i, j :: 0 <= i < |parts| && 0 <= j < |parts| && i != j ==> Objs(parts[i]) !! Objs(parts[j]))
    case StrMapShape(_) => true
    case StrSliceShape(_) => true
  }

  /** The payload has this shape. */
  ghost predicate Holds(v: Json, sh: Shape)
    requires Apart(sh)
    reads Objs(sh)
    decreases sh
  {
    match sh
    case Flat => v.JStr? || v.JOther?
    case MapShape(m, kids, _) =>
      v == JMap(m) && m.entries.Keys == kids.Keys && forall k :: k in kids ==> Holds(m.entries[k], kids[k])
    case SliceShape(a, parts, _) =>
      v == JSlice(a) && a.Length == |parts| && forall i :: 0 <= i < |parts| ==> Holds(a[i], parts[i])
    case StrMapShape(sm) => v == JStrMap(sm)
    case StrSliceShape(sa) => v == JStrSlice(sa)
  }

  /** The payload as a value. */
  ghost function Value(v: Json, sh: Shape): Tree
    requires Apart(sh) && Holds(v, sh)
    reads Objs(sh)
    decreases sh, 1
  {
    match sh
    case Flat => if v.JStr? then Str(v.s) else Other(v.id)
    case MapShape(m, kids, _) => Obj(map k | k in kids :: Value(m.entries[k], kids[k]))
    case SliceShape(a, parts, _) => Arr(Items(a, sh, 0))
    case StrMapShape(sm) => StrObj(sm.entries)
    case StrSliceShape(sa) => StrArr(sa[..])
  }

  /** The items of a slice from i on. */
  ghost function Items(a: array<Json>, sh: Shape, i: nat): (r: seq<Tree>)
    requires sh.SliceShape? && a == sh.a && Apart(sh) && Holds(JSlice(a), sh) && i <= |sh.parts|
    reads Objs(sh)
    ensures |r| == |sh.parts| - i
    ensures forall j :: i <= j < |sh.parts| ==> r[j - i] == Value(a[j], sh.parts[j])
    decreases sh, 0, |sh.parts| - i
  {
    if i == |sh.parts| then [] else [Value(a[i], sh.parts[i])] + Items(a, sh, i + 1)
  }

  /** strings.Builder. */
  class Builder {
    var text: string

    constructor ()
      ensures text == ""
    {
      text := "";
    }
  }

  /** The functions that payloads are mapped with. */
  datatype StringFn =
    | RedactWith(f: PiiFilter, fullInput: string, rnd: Rand)
    | UnredactWith(f: PiiFilter)
    | CollectInto(sb: Builder)

  /** The same as a value, with the state that a call may change. */
  datatype FnKind = Redacting(filters: Filters, fullInput: string) | Unredacting(filters: Filters) | Collecting

  datatype FnState = FnState(m: Entries, collected: string)

  ghost function FilterObjs(f: PiiFilter): set<object>
    reads f
  {
    var users: set<object> := if f.usernameFilter == null then {} else {f.usernameFilter as object};
    var email: set<object> := if f.emailFilter == null then {} else {f.emailFilter as object};
    var hosts: set<object> := if f.hostFilter == null then {} else {f.hostFilter as object};
    {f, f.replacements} + users + email + hosts
  }

  ghost function FilterOf(fn: StringFn): set<object>
  {
    if fn.CollectInto? then {} else {fn.f}
  }

  /** Everything a function looks at. */
  ghost function Uses(fn: StringFn): set<object>
    reads FilterOf(fn)
  {
    match fn
    case RedactWith(f, _, rnd) => FilterObjs(f) + {rnd}
    case UnredactWith(f) => FilterObjs(f)
    case CollectInto(sb) => {sb}
  }

  /** Everything a function changes. */
  ghost function Touches(fn: StringFn): set<object>
    reads FilterOf(fn)
  {
    match fn
    case RedactWith(f, _, rnd) => {f.replacements, rnd}
    case UnredactWith(_) => {}
    case CollectInto(sb) => {sb}
  }

  ghost predicate Usable(fn: StringFn)
    reads FilterOf(fn), Uses(fn)
  {
    fn.CollectInto? || fn.f.Valid()
  }

  ghost function KindOf(fn: StringFn): FnKind
    reads FilterOf(fn), Uses(fn)
  {
    match fn
    case RedactWith(f, fullInput, _) => Redacting(f.Config(), fullInput)
    case UnredactWith(f) => Unredacting(f.Config())
    case CollectInto(_) => Collecting
  }

  ghost function StateOf(fn: StringFn): FnState
    reads FilterOf(fn), Uses(fn)
  {
    match fn
    case RedactWith(f, _, _) => FnState(f.replacements.m, "")
    case UnredactWith(f) => FnState(f.replacements.m, "")
    case CollectInto(sb) => FnState(map[], sb.text)
  }

  /** All texts visited, each with a space behind it. */
  function Joined(log: seq<Entry>): string
  {
    if log == [] then "" else Joined(log[..|log| - 1]) + (log[|log| - 1].text + " ")
  }

  /** The visits a function was called for, one after another, and the state they led to. */
  ghost predicate History(kind: FnKind, before: FnState, log: seq<Entry>, after: FnState)
  {
    match kind
    case Redacting(filters, fullInput) =>
      Logged(filters, before.m, log, fullInput) && after.m == TableAfter(before.m, log)
    case Unredacting(filters) =>
      after == before && forall i :: 0 <= i < |log| ==> log[i].out == Passes(before.m, Enabled(filters), log[i].text)
    case Collecting =>
      && (forall i :: 0 <= i < |log| ==> log[i].out == log[i].text)
      && after.collected == before.collected + Joined(log)
  }

  lemma {:induction false} JoinedConcat(a: seq<Entry>, b: seq<Entry>)
    ensures Joined(a + b) == Joined(a) + Joined(b)
  {
    if b == [] {
      assert a + b == a;
    } else {
      var front := b[..|b| - 1];
      JoinedConcat(a, front);
      assert (a + b)[..|a + b| - 1] == a + front;
      assert Joined(a) + (Joined(front) + (b[|b| - 1].text + " ")) ==
             Joined(a) + Joined(front) + (b[|b| - 1].text + " ");
    }
  }

  lemma NoHistory(kind: FnKind, state: FnState)
    ensures History(kind, state, [], state)
  {
  }

  lemma HistoryConcat(kind: FnKind, s0: FnState, a: seq<Entry>, s1: FnState, b: seq<Entry>, s2: FnState)
    requires History(kind, s0, a, s1) && History(kind, s1, b, s2)
    ensures History(kind, s0, a + b, s2)
  {
    hide Logged, TableAfter, Joined, Passes;
    match kind
    case Redacting(filters, fullInput) => LogConcat(filters, s0.m, a, b, fullInput);
    case Unredacting(_) =>
    case Collecting =>
      JoinedConcat(a, b);
      assert s0.collected + (Joined(a) + Joined(b)) == s0.collected + Joined(a) + Joined(b);
  }

  lemma OneLogged(filters: Filters, m: Entries, e: Entry, fullInput: string, m': Entries)
    requires Redaction(filters, e.text, e.run) && e.out == e.run.Redacted()
    requires CallsMade(m, e.run.All(), fullInput, m')
    ensures Logged(filters, m, [e], fullInput) && TableAfter(m, [e]) == m'
  {
    hide Redaction, Calls, After;
    var log := [e];
    assert log[1..] == [];
    assert Logged(filters, After(m, e.run.All()), log[1..], fullInput);
    assert TableAfter(After(m, e.run.All()), log[1..]) == After(m, e.run.All());
  }

  /** What no call of the function changes. */
  datatype FnFrame = FnFrame(kind: FnKind, uses: set<object>, touches: set<object>)

  ghost function FrameOf(fn: StringFn): FnFrame
    reads FilterOf(fn), Uses(fn)
  {
    FnFrame(KindOf(fn), Uses(fn), Touches(fn))
  }

  /** The function applied to one string. */
  method Apply(fn: StringFn, s: string) returns (ok: bool, t: string, ghost log: seq<Entry>)
    requires Usable(fn)
    modifies Touches(fn)
    ensures Usable(fn) && FrameOf(fn) == old(FrameOf(fn)) && (!fn.RedactWith? ==> ok)
    ensures ok ==> History(KindOf(fn), old(StateOf(fn)), log, StateOf(fn)) && OneVisit(log, s, t)
  {
    hide Redaction, Scanned, CallsMade, Logged, TableAfter, Passes;
    log := [];
    match fn {
      case RedactWith(f, fullInput, rnd) =>
        ghost var run;
        ghost var m0, filters := f.replacements.m, f.Config();
        ok, t, run := f.Redact(s, fullInput, rnd);
        if !ok {
          return;
        }
        ghost var e := Entry(s, t, run);
        OneLogged(filters, m0, e, fullInput, f.replacements.m);
        log := [e];
      case UnredactWith(f) =>
        t := f.Unredact(s);
        ghost var e := Entry(s, t, Run([], [], []));
        ok, log := true, [e];
      case CollectInto(sb) =>
        sb.text := sb.text + s;
        sb.text := sb.text + " ";
        ghost var e := Entry(s, s, Run([], [], []));
        ok, t, log := true, s, [e];
        assert [e][..0] == [];
        assert Joined([e]) == "" + (s + " ");
    }
  }

  lemma TouchesWhatItUses(fn: StringFn)
    ensures Touches(fn) <= Uses(fn) && FilterOf(fn) <= Uses(fn)
  {
  }

  /** The values of all entries of a map. */
  ghost function Fields(m: JsonMap, sh: Shape): (r: map<string, Tree>)
    requires sh.MapShape? && m == sh.m && Apart(sh) && Holds(JMap(m), sh)
    reads Objs(sh)
    ensures Value(JMap(m), sh) == Obj(r)
  {
    map k | k in sh.kids :: Value(m.entries[k], sh.kids[k])
  }

  /** A value as the walk takes it to be. */
  ghost predicate Reads(v: Json, sh: Shape, tree: Tree)
    requires Apart(sh)
    reads Objs(sh)
  {
    Holds(v, sh) && Value(v, sh) == tree
  }

  /** A value that the walk is done with. */
  ghost predicate Done(log: seq<Entry>, v: Json, sh: Shape, was: Tree)
    requires Apart(sh)
    reads Objs(sh)
  {
    Holds(v, sh) && Visited(log, was, Value(v, sh))
  }

  /** The fields of a map during the walk. */
  ghost predicate MapState(m: JsonMap, sh: Shape, cur: map<string, Tree>)
    requires sh.MapShape? && m == sh.m && Apart(sh)
    reads Objs(sh)
  {
    && m.entries.Keys == sh.kids.Keys == cur.Keys
    && forall k :: k in sh.kids ==> Reads(m.entries[k], sh.kids[k], cur[k])
  }

  lemma MapStarts(m: JsonMap, sh: Shape)
    requires sh.MapShape? && m == sh.m && Apart(sh) && Holds(JMap(m), sh)
    ensures MapState(m, sh, Fields(m, sh)) && Value(JMap(m), sh) == Obj(Fields(m, sh))
    ensures Fields(m, sh).Keys == m.entries.Keys
  {
  }

  lemma MapEnds(m: JsonMap, sh: Shape, cur: map<string, Tree>)
    requires sh.MapShape? && m == sh.m && Apart(sh) && MapState(m, sh, cur)
    ensures Holds(JMap(m), sh) && Value(JMap(m), sh) == Obj(cur)
  {
    assert forall k :: k in sh.kids ==> Reads(m.entries[k], sh.kids[k], cur[k]);
    assert Fields(m, sh) == cur;
  }

  /**
   Every string of the payload replaced by what fn makes of it, container by container and in any
   order, each of them once. Not ok when fn fails.
   */
  method MapToolValues(m: JsonMap, fn: StringFn, ghost sh: Shape) returns (ok: bool, ghost log: seq<Entry>)
    requires sh.MapShape? && sh.m == m && Apart(sh) && Holds(JMap(m), sh)
    requires Usable(fn) && Uses(fn) !! Objs(sh)
    modifies Objs(sh), Touches(fn)
    ensures Usable(fn) && FrameOf(fn) == old(FrameOf(fn)) && (!fn.RedactWith? ==> ok)
    ensures ok ==> History(KindOf(fn), old(StateOf(fn)), log, StateOf(fn))
    ensures ok ==> Holds(JMap(m), sh) && Visited(log, old(Value(JMap(m), sh)), Value(JMap(m), sh))
    decreases sh, 0, 2
  {
    hide History, Usable, KindOf, StateOf, MapState, Uses, Touches, Holds, Value, Visited, FieldsSoFar;
    log := [];
    ghost var vals, s0, frame := Fields(m, sh), StateOf(fn), FrameOf(fn);
    ghost var cur, keys: seq<string> := vals, [];
    NoHistory(KindOf(fn), s0);
    MapStarts(m, sh);
    FieldsStart(vals);
    var rest := m.entries.Keys;
    while rest != {}
      invariant Usable(fn) && FrameOf(fn) == frame
      invariant History(KindOf(fn), s0, log, StateOf(fn))
      invariant MapState(m, sh, cur) && FieldsSoFar(log, keys, vals, cur, rest)
    {
      var key :| key in rest;
      ghost var s1, more, now := StateOf(fn), [], Other(0);
      RestIsThere(log, keys, vals, cur, rest, key);
      ok, more, now := MapEntry(m, key, fn, sh, cur);
      if !ok {
        return;
      }
      HistoryConcat(KindOf(fn), s0, log, s1, more, StateOf(fn));
      FieldsGoOn(log, keys, vals, cur, rest, key, more, now);
      rest := rest - {key};
      log, keys, cur := log + more, keys + [key], cur[key := now];
    }
    MapEnds(m, sh, cur);
    FieldsEnd(log, keys, vals, cur);
    ok := true;
  }

  lemma RestIsThere(log: seq<Entry>, keys: seq<string>, vals: map<string, Tree>, cur: map<string, Tree>,
                    rest: set<string>, key: string)
    requires FieldsSoFar(log, keys, vals, cur, rest) && key in rest
    ensures key in cur
  {
  }

  lemma KidsApart(sh: Shape, key: string)
    requires sh.MapShape? && Apart(sh) && key in sh.kids
    ensures forall k :: k in sh.kids ==> sh.m !in Objs(sh.kids[k]) && Objs(sh.kids[k]) <= Objs(sh) && Apart(sh.kids[k])
    ensures forall k :: k in sh.kids && k != key ==> Objs(sh.kids[k]) !! Objs(sh.kids[key])
    ensures sh.m !in sh.inner && forall k :: k in sh.kids ==> Objs(sh.kids[k]) <= sh.inner
  {
  }

  /** The walk in the middle of an entry: nothing is said of the value under key. */
  ghost predicate MapStateBut(entries: map<string, Json>, sh: Shape, cur: map<string, Tree>, key: string)
    requires sh.MapShape? && Apart(sh)
    reads sh.inner
  {
    && entries.Keys == sh.kids.Keys == cur.Keys && key in cur
    && forall k :: k in sh.kids && k != key ==> Reads(entries[k], sh.kids[k], cur[k])
  }

  /** Once that value is done and put back the walk is one entry further. */
  lemma MapGoesOn(m: JsonMap, was: map<string, Json>, key: string, w: Json, sh: Shape, cur: map<string, Tree>,
                  now: Tree)
    requires sh.MapShape? && sh.m == m && Apart(sh) && MapStateBut(was, sh, cur, key)
    requires Reads(w, sh.kids[key], now) && m.entries == was[key := w]
    ensures MapState(m, sh, cur[key := now])
  {
    hide Holds, Value, Reads, Apart;
    KidsApart(sh, key);
  }

  lemma MapKeys(m: JsonMap, sh: Shape, cur: map<string, Tree>)
    requires sh.MapShape? && m == sh.m && Apart(sh) && MapState(m, sh, cur)
    ensures m.entries.Keys == sh.kids.Keys == cur.Keys
  {
  }

  /** The value of one entry, not yet put back. */
  method MapKid(m: JsonMap, key: string, fn: StringFn, ghost sh: Shape, ghost cur: map<string, Tree>)
    returns (ok: bool, w: Json, ghost more: seq<Entry>)
    requires sh.MapShape? && sh.m == m && Apart(sh) && MapState(m, sh, cur) && key in cur
    requires Usable(fn) && Uses(fn) !! Objs(sh)
    modifies Objs(sh) - {m}, Touches(fn)
    ensures Usable(fn) && FrameOf(fn) == old(FrameOf(fn)) && (!fn.RedactWith? ==> ok)
    ensures ok ==> History(KindOf(fn), old(StateOf(fn)), more, StateOf(fn))
    ensures ok ==> MapStateBut(m.entries, sh, cur, key) && Done(more, w, sh.kids[key], cur[key])
    decreases sh, 0, 0
  {
    hide History, KindOf, StateOf, Holds, Value, Visited, Done, Reads, Usable, Uses, Touches, Apart;
    KidsApart(sh, key);
    TouchesWhatItUses(fn);
    ghost var kid := sh.kids[key];
    assert Reads(m.entries[key], kid, cur[key]);
    ok, w, more := MapValue(m.entries[key], fn, kid, cur[key]);
  }

  /** One entry of a map. */
  method MapEntry(m: JsonMap, key: string, fn: StringFn, ghost sh: Shape, ghost cur: map<string, Tree>)
    returns (ok: bool, ghost more: seq<Entry>, ghost now: Tree)
    requires sh.MapShape? && sh.m == m && Apart(sh) && MapState(m, sh, cur) && key in cur
    requires Usable(fn) && Uses(fn) !! Objs(sh)
    modifies Objs(sh), Touches(fn)
    ensures Usable(fn) && FrameOf(fn) == old(FrameOf(fn)) && (!fn.RedactWith? ==> ok)
    ensures ok ==> History(KindOf(fn), old(StateOf(fn)), more, StateOf(fn))
    ensures ok ==> MapState(m, sh, cur[key := now]) && Visited(more, cur[key], now)
    decreases sh, 0, 1
  {
    hide History, KindOf, StateOf, Usable, Uses, Touches, Apart, MapState, MapStateBut, Visited, Holds, Value;
    MapKeys(m, sh, cur);
    KidsApart(sh, key);
    TouchesWhatItUses(fn);
    var w;
    now := Other(0);
    ok, w, more := MapKid(m, key, fn, sh, cur);
    if ok {
      now := Value(w, sh.kids[key]);
      ghost var was := m.entries;
      m.entries := m.entries[key := w];
      MapGoesOn(m, was, key, w, sh, cur, now);
    }
  }

  /** The same for a single value: containers are changed in place, a string is replaced. */
  method MapValue(v: Json, fn: StringFn, ghost sh: Shape, ghost was: Tree)
    returns (ok: bool, w: Json, ghost log: seq<Entry>)
    requires Apart(sh) && Reads(v, sh, was)
    requires Usable(fn) && Uses(fn) !! Objs(sh)
    modifies Objs(sh), Touches(fn)
    ensures Usable(fn) && FrameOf(fn) == old(FrameOf(fn)) && (!fn.RedactWith? ==> ok)
    ensures ok ==> History(KindOf(fn), old(StateOf(fn)), log, StateOf(fn)) && Done(log, w, sh, was)
    decreases sh, 1
  {
    hide History, KindOf, StateOf, Usable, Uses, Touches, OneVisit;
    TouchesWhatItUses(fn);
    w, log := v, [];
    match v {
      case JStr(s) =>
        var t;
        ok, t, log := Apply(fn, s);
        w := JStr(t);
      case JMap(m) =>
        ok, log := MapToolValues(m, fn, sh);
      case JSlice(a) =>
        ok, log := MapSlice(a, fn, sh);
      case JStrMap(sm) =>
        ok, log := MapStringMap(sm, fn);
      case JStrSlice(sa) =>
        ok, log := MapStringSlice(sa, fn);
      case JOther(_) =>
        NoHistory(KindOf(fn), StateOf(fn));
        ok := true;
    }
  }

  /** The elements of a slice during the walk. */
  ghost predicate SliceState(a: array<Json>, sh: Shape, cur: seq<Tree>)
    requires sh.SliceShape? && a == sh.a && Apart(sh)
    reads Objs(sh)
  {
    |sh.parts| == a.Length == |cur| && forall i :: 0 <= i < |cur| ==> Reads(a[i], sh.parts[i], cur[i])
  }

  lemma SliceStarts(a: array<Json>, sh: Shape)
    requires sh.SliceShape? && a == sh.a && Apart(sh) && Holds(JSlice(a), sh)
    ensures SliceState(a, sh, Items(a, sh, 0)) && Value(JSlice(a), sh) == Arr(Items(a, sh, 0))
  {
    var vals := Items(a, sh, 0);
    forall i | 0 <= i < |vals|
      ensures Reads(a[i], sh.parts[i], vals[i])
    {
      assert vals[i - 0] == Value(a[i], sh.parts[i]);
    }
  }

  lemma SliceEnds(a: array<Json>, sh: Shape, cur: seq<Tree>)
    requires sh.SliceShape? && a == sh.a && Apart(sh) && SliceState(a, sh, cur)
    ensures Holds(JSlice(a), sh) && Value(JSlice(a), sh) == Arr(cur)
  {
    assert forall i :: 0 <= i < |cur| ==> Reads(a[i], sh.parts[i], cur[i]);
    var w := Items(a, sh, 0);
    forall i | 0 <= i < |cur|
      ensures cur[i] == w[i]
    {
      assert w[i - 0] == Value(a[i], sh.parts[i]);
    }
    assert w == cur;
  }

  /** The first n elements are done, the others are as they were. */
  ghost predicate ItemsSoFar(log: seq<Entry>, vals: seq<Tree>, cur: seq<Tree>, n: nat)
    requires n <= |vals| == |cur|
  {
    (forall i :: n <= i < |vals| ==> cur[i] == vals[i]) && ItemsVisited(log, n, Arr(vals), Arr(cur))
  }

  lemma ItemsGoOn(log: seq<Entry>, vals: seq<Tree>, cur: seq<Tree>, n: nat, more: seq<Entry>, now: Tree)
    requires n < |vals| == |cur| && ItemsSoFar(log, vals, cur, n) && Visited(more, cur[n], now)
    ensures ItemsSoFar(log + more, vals, cur[n := now], n + 1)
  {
    hide Visited, ItemsVisited;
    ItemVisited(log, n, vals, cur, more, now);
  }

  method MapSlice(a: array<Json>, fn: StringFn, ghost sh: Shape) returns (ok: bool, ghost log: seq<Entry>)
    requires sh.SliceShape? && sh.a == a && Apart(sh) && Holds(JSlice(a), sh)
    requires Usable(fn) && Uses(fn) !! Objs(sh)
    modifies Objs(sh), Touches(fn)
    ensures Usable(fn) && FrameOf(fn) == old(FrameOf(fn)) && (!fn.RedactWith? ==> ok)
    ensures ok ==> History(KindOf(fn), old(StateOf(fn)), log, StateOf(fn))
    ensures ok ==> Holds(JSlice(a), sh) && Visited(log, old(Value(JSlice(a), sh)), Value(JSlice(a), sh))
    decreases sh, 0, 1
  {
    hide History, Usable, KindOf, StateOf, SliceState, Uses, Touches, Holds, Value;
    log := [];
    ghost var vals, s0, frame := Items(a, sh, 0), StateOf(fn), FrameOf(fn);
    ghost var cur := vals;
    NoHistory(KindOf(fn), s0);
    SliceStarts(a, sh);
    SliceLength(a, sh, cur);
    var n := 0;
    while n < a.Length
      invariant n <= a.Length == |vals| == |cur|
      invariant Usable(fn) && FrameOf(fn) == frame
      invariant History(KindOf(fn), s0, log, StateOf(fn))
      invariant SliceState(a, sh, cur) && ItemsSoFar(log, vals, cur, n)
    {
      ghost var s1, more, now := StateOf(fn), [], Other(0);
      ok, more, now := MapItem(a, n, fn, sh, cur);
      if !ok {
        return;
      }
      HistoryConcat(KindOf(fn), s0, log, s1, more, StateOf(fn));
      ItemsGoOn(log, vals, cur, n, more, now);
      log, cur := log + more, cur[n := now];
      n := n + 1;
    }
    SliceEnds(a, sh, cur);
    ok := true;
  }

  lemma SliceLength(a: array<Json>, sh: Shape, cur: seq<Tree>)
    requires sh.SliceShape? && a == sh.a && Apart(sh) && SliceState(a, sh, cur)
    ensures a.Length == |cur|
  {
  }

  /** One element of a slice. */
  method MapItem(a: array<Json>, n: nat, fn: StringFn, ghost sh: Shape, ghost cur: seq<Tree>)
    returns (ok: bool, ghost more: seq<Entry>, ghost now: Tree)
    requires sh.SliceShape? && sh.a == a && Apart(sh) && n < a.Length == |cur| && SliceState(a, sh, cur)
    requires Usable(fn) && Uses(fn) !! Objs(sh)
    modifies Objs(sh), Touches(fn)
    ensures Usable(fn) && FrameOf(fn) == old(FrameOf(fn)) && (!fn.RedactWith? ==> ok)
    ensures ok ==> History(KindOf(fn), old(StateOf(fn)), more, StateOf(fn))
    ensures ok ==> SliceState(a, sh, cur[n := now]) && Visited(more, cur[n], now)
    decreases sh, 0, 0
  {
    hide History, KindOf, StateOf, Holds, Value, Visited, Usable, Uses, Touches;
    TouchesWhatItUses(fn);
    var w;
    now := Other(0);
    ok, w, more := MapValue(a[n], fn, sh.parts[n], cur[n]);
    if !ok {
      return;
    }
    now := Value(w, sh.parts[n]);
    a[n] := w;
  }

  /** One entry of a map of strings. */
  method MapString(sm: StringMap, key: string, fn: StringFn) returns (ok: bool, ghost more: seq<Entry>)
    requires Usable(fn) && sm !in Uses(fn) && key in sm.entries
    modifies sm, Touches(fn)
    ensures Usable(fn) && FrameOf(fn) == old(FrameOf(fn)) && (!fn.RedactWith? ==> ok)
    ensures ok ==> History(KindOf(fn), old(StateOf(fn)), more, StateOf(fn))
    ensures ok ==> && key in sm.entries && OneVisit(more, old(sm.entries)[key], sm.entries[key])
                   && sm.entries == old(sm.entries)[key := sm.entries[key]]
  {
    hide History, Usable, KindOf, StateOf, Uses, Touches;
    TouchesWhatItUses(fn);
    var t;
    ok, t, more := Apply(fn, sm.entries[key]);
    if ok {
      sm.entries := sm.entries[key := t];
    }
  }

  lemma TextIsThere(log: seq<Entry>, keys: seq<string>, vals: map<string, string>, cur: map<string, string>,
                    rest: set<string>, key: string)
    requires TextsSoFar(log, keys, vals, cur, rest) && key in rest
    ensures key in cur
  {
  }

  method MapStringMap(sm: StringMap, fn: StringFn) returns (ok: bool, ghost log: seq<Entry>)
    requires Usable(fn) && sm !in Uses(fn)
    modifies sm, Touches(fn)
    ensures Usable(fn) && FrameOf(fn) == old(FrameOf(fn)) && (!fn.RedactWith? ==> ok)
    ensures ok ==> History(KindOf(fn), old(StateOf(fn)), log, StateOf(fn))
    ensures ok ==> Visited(log, StrObj(old(sm.entries)), StrObj(sm.entries))
  {
    hide History, OneVisit, Usable, KindOf, StateOf, Uses, Touches, TextsSoFar, Visited;
    TouchesWhatItUses(fn);
    log := [];
    ghost var keys: seq<string> := [];
    TextsStart(sm.entries);
    ghost var vals, s0, frame := sm.entries, StateOf(fn), FrameOf(fn);
    NoHistory(KindOf(fn), s0);
    var rest := sm.entries.Keys;
    while rest != {}
      invariant Usable(fn) && FrameOf(fn) == frame
      invariant History(KindOf(fn), s0, log, StateOf(fn))
      invariant TextsSoFar(log, keys, vals, sm.entries, rest)
    {
      var key :| key in rest;
      ghost var s1, more, cur := StateOf(fn), [], sm.entries;
      TextIsThere(log, keys, vals, cur, rest, key);
      ok, more := MapString(sm, key, fn);
      if !ok {
        return;
      }
      HistoryConcat(KindOf(fn), s0, log, s1, more, StateOf(fn));
      TextsGoOn(log, keys, vals, cur, rest, key, more, sm.entries[key]);
      rest := rest - {key};
      log, keys := log + more, keys + [key];
    }
    TextsEnd(log, keys, vals, sm.entries);
    ok := true;
  }

  method MapStringSlice(sa: array<string>, fn: StringFn) returns (ok: bool, ghost log: seq<Entry>)
    requires Usable(fn) && sa !in Uses(fn)
    modifies sa, Touches(fn)
    ensures Usable(fn) && FrameOf(fn) == old(FrameOf(fn)) && (!fn.RedactWith? ==> ok)
    ensures ok ==> History(KindOf(fn), old(StateOf(fn)), log, StateOf(fn))
    ensures ok ==> Visited(log, StrArr(old(sa[..])), StrArr(sa[..]))
  {
    hide History, OneVisit, Usable, KindOf, StateOf, Uses, Touches, Visited;
    TouchesWhatItUses(fn);
    log := [];
    ghost var vals, s0, frame := sa[..], StateOf(fn), FrameOf(fn);
    NoHistory(KindOf(fn), s0);
    var n := 0;
    while n < sa.Length
      invariant n <= sa.Length == |vals|
      invariant Usable(fn) && FrameOf(fn) == frame
      invariant History(KindOf(fn), s0, log, StateOf(fn))
      invariant StringsSoFar(log, vals, sa[..], n)
    {
      ghost var s1, more, cur := StateOf(fn), [], sa[..];
      var t;
      ok, t, more := Apply(fn, sa[n]);
      if !ok {
        return;
      }
      sa[n] := t;
      assert sa[..] == cur[n := t];
      HistoryConcat(KindOf(fn), s0, log, s1, more, StateOf(fn));
      StringsGoOn(log, vals, cur, n, more, t);
      log := log + more;
      n := n + 1;
    }
    StringsEnd(log, vals, sa[..]);
    ok := true;
  }
}
