/**
 filter/values.go: a payload walked string by string. The log of a walk has one entry for each string, in the
 order in which the strings were visited, and no other entries.
 */
module Visits {
  import opened Payload

  /** An order of all keys. */
  ghost predicate OrderOf(keys: seq<string>, all: set<string>)
  {
    && (forall k :: k in keys <==> k in all)
    && forall i, j :: 0 <= i < j < |keys| ==> keys[i] != keys[j]
  }

  /** One visit, of this string, which became t. */
  predicate OneVisit(log: seq<Entry>, s: string, t: string)
  {
    |log| == 1 && log[0].text == s && log[0].out == t
  }

  /** The walk of payload v, which became w: slices from the front, maps in some order of their keys. */
  ghost predicate Visited(log: seq<Entry>, v: Tree, w: Tree)
    decreases v, 1, 0
  {
    match v
    case Str(s) => w.Str? && OneVisit(log, s, w.s)
    case Obj(fields) =>
      && w.Obj? && w.fields.Keys == fields.Keys
      && exists keys :: OrderOf(keys, fields.Keys) && FieldsVisited(log, keys, v, w)
    case Arr(items) => w.Arr? && |w.items| == |items| && ItemsVisited(log, |items|, v, w)
    case StrObj(texts) =>
      && w.StrObj? && w.texts.Keys == texts.Keys
      && exists keys :: OrderOf(keys, texts.Keys) && TextsVisited(log, keys, texts, w.texts)
    case StrArr(strings) => w.StrArr? && |w.strings| == |strings| && StringsVisited(log, strings, w.strings)
    case Other(_) => w == v && log == []
  }

  /** The log is that of the fields with these keys, one behind the other. */
  ghost predicate FieldsVisited(log: seq<Entry>, keys: seq<string>, v: Tree, w: Tree)
    requires v.Obj? && w.Obj? && forall k :: k in keys ==> k in v.fields && k in w.fields
    decreases v, 0, |keys|
  {
    if keys == [] then log == []
    else
      var n := |keys| - 1;
      exists cut :: 0 <= cut <= |log| && FieldsVisited(log[..cut], keys[..n], v, w)
                    && Visited(log[cut..], v.fields[keys[n]], w.fields[keys[n]])
  }

  /** The log is that of the first n items. */
  ghost predicate ItemsVisited(log: seq<Entry>, n: nat, v: Tree, w: Tree)
    requires v.Arr? && w.Arr? && n <= |v.items| == |w.items|
    decreases v, 0, n
  {
    if n == 0 then log == []
    else
      exists cut :: 0 <= cut <= |log| && ItemsVisited(log[..cut], n - 1, v, w)
                    && Visited(log[cut..], v.items[n - 1], w.items[n - 1])
  }

  predicate TextsVisited(log: seq<Entry>, keys: seq<string>, texts: map<string, string>, now: map<string, string>)
    requires forall k :: k in keys ==> k in texts && k in now
  {
    && |log| == |keys|
    && forall i :: 0 <= i < |log| ==> log[i].text == texts[keys[i]] && log[i].out == now[keys[i]]
  }

  predicate StringsVisited(log: seq<Entry>, strings: seq<string>, now: seq<string>)
  {
    && |log| == |strings| == |now|
    && forall i :: 0 <= i < |log| ==> log[i].text == strings[i] && log[i].out == now[i]
  }

  lemma CutLog(log: seq<Entry>, cut: nat)
    requires cut <= |log|
    ensures [] + log[..cut] + log[cut..] == log && log[..cut] + log[cut..] + [] == log
  {
  }

  /** So every string was mapped. */
  lemma {:induction false} VisitedIsMapped(log: seq<Entry>, v: Tree, w: Tree)
    requires Visited(log, v, w)
    ensures TreeMapped(log, v, w)
    decreases v, 1, 0
  {
    match v
    case Str(s) => assert log[0].text == s;
    case Obj(fields) =>
      var keys :| OrderOf(keys, fields.Keys) && FieldsVisited(log, keys, v, w);
      forall k | k in fields
        ensures TreeMapped(log, fields[k], w.fields[k])
      {
        FieldIsMapped(log, keys, v, w, k);
      }
    case Arr(items) =>
      forall i | 0 <= i < |items|
        ensures TreeMapped(log, items[i], w.items[i])
      {
        ItemIsMapped(log, |items|, v, w, i);
      }
    case StrObj(texts) =>
      var keys :| OrderOf(keys, texts.Keys) && TextsVisited(log, keys, texts, w.texts);
      forall k | k in texts
        ensures Became(log, texts[k], w.texts[k])
      {
        var i :| 0 <= i < |keys| && keys[i] == k;
        assert log[i].text == texts[k];
      }
    case StrArr(strings) =>
      forall i | 0 <= i < |strings|
        ensures Became(log, strings[i], w.strings[i])
      {
        assert log[i].text == strings[i];
      }
    case Other(_) =>
  }

  lemma {:induction false} FieldIsMapped(log: seq<Entry>, keys: seq<string>, v: Tree, w: Tree, k: string)
    requires v.Obj? && w.Obj? && (forall key :: key in keys ==> key in v.fields && key in w.fields)
    requires FieldsVisited(log, keys, v, w) && k in keys
    ensures TreeMapped(log, v.fields[k], w.fields[k])
    decreases v, 0, |keys|
  {
    hide TreeMapped, Visited;
    var n := |keys| - 1;
    var cut :| 0 <= cut <= |log| && FieldsVisited(log[..cut], keys[..n], v, w)
               && Visited(log[cut..], v.fields[keys[n]], w.fields[keys[n]]);
    CutLog(log, cut);
    if k == keys[n] {
      VisitedIsMapped(log[cut..], v.fields[k], w.fields[k]);
      TreeMappedMore(log[..cut], log[cut..], [], v.fields[k], w.fields[k]);
    } else {
      FieldIsMapped(log[..cut], keys[..n], v, w, k);
      TreeMappedMore([], log[..cut], log[cut..], v.fields[k], w.fields[k]);
    }
  }

  lemma {:induction false} ItemIsMapped(log: seq<Entry>, n: nat, v: Tree, w: Tree, i: nat)
    requires v.Arr? && w.Arr? && i < n <= |v.items| == |w.items| && ItemsVisited(log, n, v, w)
    ensures TreeMapped(log, v.items[i], w.items[i])
    decreases v, 0, n
  {
    hide TreeMapped, Visited;
    var cut :| 0 <= cut <= |log| && ItemsVisited(log[..cut], n - 1, v, w)
               && Visited(log[cut..], v.items[n - 1], w.items[n - 1]);
    CutLog(log, cut);
    if i == n - 1 {
      VisitedIsMapped(log[cut..], v.items[i], w.items[i]);
      TreeMappedMore(log[..cut], log[cut..], [], v.items[i], w.items[i]);
    } else {
      ItemIsMapped(log[..cut], n - 1, v, w, i);
      TreeMappedMore([], log[..cut], log[cut..], v.items[i], w.items[i]);
    }
  }

  /** What becomes of other fields does not matter. */
  lemma {:induction false} FieldsKeep(log: seq<Entry>, keys: seq<string>, v: Tree, w: Tree, w2: Tree)
    requires v.Obj? && w.Obj? && w2.Obj?
    requires forall k :: k in keys ==> k in v.fields && k in w.fields && k in w2.fields && w.fields[k] == w2.fields[k]
    requires FieldsVisited(log, keys, v, w)
    ensures FieldsVisited(log, keys, v, w2)
    decreases |keys|
  {
    hide Visited;
    if keys != [] {
      var n := |keys| - 1;
      var cut :| 0 <= cut <= |log| && FieldsVisited(log[..cut], keys[..n], v, w)
                 && Visited(log[cut..], v.fields[keys[n]], w.fields[keys[n]]);
      FieldsKeep(log[..cut], keys[..n], v, w, w2);
    }
  }

  lemma {:induction false} ItemsKeep(log: seq<Entry>, n: nat, v: Tree, w: Tree, w2: Tree)
    requires v.Arr? && w.Arr? && w2.Arr? && n <= |v.items| == |w.items| == |w2.items|
    requires forall i :: 0 <= i < n ==> w.items[i] == w2.items[i]
    requires ItemsVisited(log, n, v, w)
    ensures ItemsVisited(log, n, v, w2)
    decreases n
  {
    hide Visited;
    if n > 0 {
      var cut :| 0 <= cut <= |log| && ItemsVisited(log[..cut], n - 1, v, w)
                 && Visited(log[cut..], v.items[n - 1], w.items[n - 1]);
      ItemsKeep(log[..cut], n - 1, v, w, w2);
    }
  }

  /** One more field. */
  lemma FieldVisited(log: seq<Entry>, keys: seq<string>, vals: map<string, Tree>, cur: map<string, Tree>,
                     more: seq<Entry>, key: string, now: Tree)
    requires cur.Keys == vals.Keys && (forall k :: k in keys ==> k in vals) && key in vals && key !in keys
    requires FieldsVisited(log, keys, Obj(vals), Obj(cur)) && Visited(more, vals[key], now)
    ensures FieldsVisited(log + more, keys + [key], Obj(vals), Obj(cur[key := now]))
  {
    hide Visited;
    var v, w := Obj(vals), Obj(cur[key := now]);
    FieldsKeep(log, keys, v, Obj(cur), w);
    assert (log + more)[..|log|] == log && (log + more)[|log|..] == more;
    assert (keys + [key])[..|keys|] == keys;
  }

  /** One more item. */
  lemma ItemVisited(log: seq<Entry>, n: nat, vals: seq<Tree>, cur: seq<Tree>, more: seq<Entry>, now: Tree)
    requires n < |vals| == |cur| && ItemsVisited(log, n, Arr(vals), Arr(cur)) && Visited(more, vals[n], now)
    ensures ItemsVisited(log + more, n + 1, Arr(vals), Arr(cur[n := now]))
  {
    hide Visited;
    var v, w := Arr(vals), Arr(cur[n := now]);
    ItemsKeep(log, n, v, Arr(cur), w);
    assert (log + more)[..|log|] == log && (log + more)[|log|..] == more;
  }

  /** The walk of a map so far: the keys done, in order, and what the fields are by now. */
  ghost predicate FieldsSoFar(log: seq<Entry>, keys: seq<string>, vals: map<string, Tree>, cur: map<string, Tree>,
                              rest: set<string>)
  {
    && cur.Keys == vals.Keys && rest <= vals.Keys && OrderOf(keys, vals.Keys - rest)
    && (forall k :: k in rest ==> k in vals && k in cur && cur[k] == vals[k])
    && FieldsVisited(log, keys, Obj(vals), Obj(cur))
  }

  lemma FieldsStart(vals: map<string, Tree>)
    ensures FieldsSoFar([], [], vals, vals, vals.Keys)
  {
  }

  lemma FieldsGoOn(log: seq<Entry>, keys: seq<string>, vals: map<string, Tree>, cur: map<string, Tree>,
                   rest: set<string>, key: string, more: seq<Entry>, now: Tree)
    requires FieldsSoFar(log, keys, vals, cur, rest) && key in rest && key in cur && Visited(more, cur[key], now)
    ensures FieldsSoFar(log + more, keys + [key], vals, cur[key := now], rest - {key})
  {
    hide Visited, FieldsVisited;
    FieldVisited(log, keys, vals, cur, more, key, now);
    KeysGoOn(keys, vals.Keys, rest, key);
  }

  lemma KeysGoOn(keys: seq<string>, all: set<string>, rest: set<string>, key: string)
    requires OrderOf(keys, all - rest) && key in rest && rest <= all
    ensures OrderOf(keys + [key], all - (rest - {key}))
  {
  }

  lemma FieldsEnd(log: seq<Entry>, keys: seq<string>, vals: map<string, Tree>, cur: map<string, Tree>)
    requires FieldsSoFar(log, keys, vals, cur, {})
    ensures Visited(log, Obj(vals), Obj(cur))
  {
    hide FieldsVisited;
    assert vals.Keys - {} == vals.Keys;
  }

  /** The same for a map of strings. */
  ghost predicate TextsSoFar(log: seq<Entry>, keys: seq<string>, vals: map<string, string>, cur: map<string, string>,
                             rest: set<string>)
  {
    && cur.Keys == vals.Keys && rest <= vals.Keys && OrderOf(keys, vals.Keys - rest)
    && (forall k :: k in rest ==> k in vals && k in cur && cur[k] == vals[k])
    && TextsVisited(log, keys, vals, cur)
  }

  lemma TextsStart(vals: map<string, string>)
    ensures TextsSoFar([], [], vals, vals, vals.Keys)
  {
  }

  lemma TextsGoOn(log: seq<Entry>, keys: seq<string>, vals: map<string, string>, cur: map<string, string>,
                  rest: set<string>, key: string, more: seq<Entry>, now: string)
    requires TextsSoFar(log, keys, vals, cur, rest) && key in rest && key in cur && OneVisit(more, cur[key], now)
    ensures TextsSoFar(log + more, keys + [key], vals, cur[key := now], rest - {key})
  {
    KeysGoOn(keys, vals.Keys, rest, key);
  }

  lemma TextsEnd(log: seq<Entry>, keys: seq<string>, vals: map<string, string>, cur: map<string, string>)
    requires TextsSoFar(log, keys, vals, cur, {})
    ensures Visited(log, StrObj(vals), StrObj(cur))
  {
    assert vals.Keys - {} == vals.Keys;
  }

  /** The first n strings of a slice. */
  predicate StringsSoFar(log: seq<Entry>, vals: seq<string>, cur: seq<string>, n: nat)
    requires n <= |vals| == |cur|
  {
    cur[n..] == vals[n..] && StringsVisited(log, vals[..n], cur[..n])
  }

  lemma StringsGoOn(log: seq<Entry>, vals: seq<string>, cur: seq<string>, n: nat, more: seq<Entry>, now: string)
    requires n < |vals| == |cur| && StringsSoFar(log, vals, cur, n) && OneVisit(more, cur[n], now)
    ensures StringsSoFar(log + more, vals, cur[n := now], n + 1)
  {
    assert cur[n] == cur[n..][0] == vals[n..][0] == vals[n];
    assert cur[n := now][n + 1..] == cur[n..][1..] == vals[n..][1..] == vals[n + 1..];
  }

  lemma StringsEnd(log: seq<Entry>, vals: seq<string>, cur: seq<string>)
    requires |vals| == |cur| && StringsSoFar(log, vals, cur, |vals|)
    ensures Visited(log, StrArr(vals), StrArr(cur))
  {
    assert vals[..|vals|] == vals && cur[..|cur|] == cur;
  }
}
