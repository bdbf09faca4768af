/**
 Tool payloads as values, and what it means to redact all their strings one after another while the
 table grows.
 */
module Payload {
  import opened Table
  import opened Unredaction
  import opened Pieces
  import opened PiiLaws

  datatype Tree =
    | Str(s: string)
    | Obj(fields: map<string, Tree>)
    | Arr(items: seq<Tree>)
    | StrObj(texts: map<string, string>)
    | StrArr(strings: seq<string>)
    | Other(id: int)

  /** One string visited: the text, what it became, and for a redaction what the filters did with it. */
  datatype Entry = Entry(text: string, out: string, run: Run)

  function TableAfter(m: Entries, log: seq<Entry>): Entries
    decreases |log|
  {
    if log == [] then m else TableAfter(After(m, log[0].run.All()), log[1..])
  }

  /** Every string was redacted on the table that the strings before it had left. */
  ghost predicate Logged(f: Filters, m: Entries, log: seq<Entry>, fullInput: string)
    decreases |log|
  {
    log != [] ==>
      && Redaction(f, log[0].text, log[0].run) && log[0].out == log[0].run.Redacted()
      && Calls(m, log[0].run.All(), fullInput)
      && Logged(f, After(m, log[0].run.All()), log[1..], fullInput)
  }

  /** The assumptions of the layered round trip, for every string. */
  ghost predicate LogSeparated(f: Filters, m: Entries, log: seq<Entry>)
    decreases |log|
  {
    log != [] ==>
      && WellSpaced(f.email, Out(log[0].run.users)) && SeparatedCalls(m, log[0].run.All())
      && LogSeparated(f, After(m, log[0].run.All()), log[1..])
  }

  lemma {:induction false} LogConcat(f: Filters, m: Entries, a: seq<Entry>, b: seq<Entry>, fullInput: string)
    ensures TableAfter(m, a + b) == TableAfter(TableAfter(m, a), b)
    ensures Logged(f, m, a + b, fullInput) <==>
            Logged(f, m, a, fullInput) && Logged(f, TableAfter(m, a), b, fullInput)
    decreases |a|
  {
    hide Redaction, Calls, After;
    if a == [] {
      assert a + b == b;
    } else {
      assert (a + b)[0] == a[0] && (a + b)[1..] == a[1..] + b;
      LogConcat(f, After(m, a[0].run.All()), a[1..], b, fullInput);
    }
  }

  lemma ExtendsFurther(a: Entries, b: Entries, c: Entries)
    requires Extends(a, b) && Extends(b, c)
    ensures Extends(a, c)
  {
  }

  /** The table keeps all its entries, and stays stable, from string to string. */
  lemma {:induction false} LogKeepsTable(f: Filters, m: Entries, log: seq<Entry>, fullInput: string)
    requires ValidFilters(f) && Stable(m) && LetterKeys(m)
    requires Logged(f, m, log, fullInput) && LogSeparated(f, m, log)
    ensures var later := TableAfter(m, log);
            Stable(later) && LetterKeys(later) && Extends(m, later)
    decreases |log|
  {
    hide ValidFilters, Stable, LetterKeys, Redaction, Calls, WellSpaced, SeparatedCalls, After, Extends;
    if log == [] {
      SelfExtends(m);
    } else {
      var run := log[0].run;
      RunKeepsTable(f, m, log[0].text, fullInput, run);
      LogKeepsTable(f, After(m, run.All()), log[1..], fullInput);
      ExtendsFurther(m, After(m, run.All()), TableAfter(m, log));
    }
  }

  /** Every string redacted along the way can be restored at the end. */
  lemma {:induction false} EveryTextRestored(f: Filters, m: Entries, log: seq<Entry>, fullInput: string, later: Entries,
                                             i: nat)
    requires ValidFilters(f) && Stable(m) && LetterKeys(m)
    requires Logged(f, m, log, fullInput) && LogSeparated(f, m, log)
    requires Extends(TableAfter(m, log), later) && LetterKeys(later)
    requires i < |log| && NoKeyIn(later, log[i].text)
    ensures Passes(later, Enabled(f), log[i].out) == log[i].text
    decreases |log|
  {
    hide ValidFilters, Stable, LetterKeys, Redaction, Calls, WellSpaced, SeparatedCalls, After, Extends, NoKeyIn,
      Passes, Run.Redacted;
    var run := log[0].run;
    var m1 := After(m, run.All());
    RunKeepsTable(f, m, log[0].text, fullInput, run);
    if i == 0 {
      LogKeepsTable(f, m1, log[1..], fullInput);
      ExtendsFurther(m1, TableAfter(m, log), later);
      LayeredRoundTrip(f, m, log[0].text, fullInput, run, later);
    } else {
      EveryTextRestored(f, m1, log[1..], fullInput, later, i - 1);
    }
  }

  /** s became t when it was visited. */
  predicate Became(log: seq<Entry>, s: string, t: string)
  {
    exists i :: 0 <= i < |log| && log[i].text == s && log[i].out == t
  }

  /** The same shape, the same values that are no strings, and every string mapped. */
  predicate TreeMapped(log: seq<Entry>, v: Tree, w: Tree)
  {
    match v
    case Str(s) => w.Str? && Became(log, s, w.s)
    case Obj(fields) =>
      w.Obj? && w.fields.Keys == fields.Keys && forall k :: k in fields ==> TreeMapped(log, fields[k], w.fields[k])
    case Arr(items) =>
      w.Arr? && |w.items| == |items| && forall i :: 0 <= i < |items| ==> TreeMapped(log, items[i], w.items[i])
    case StrObj(texts) =>
      w.StrObj? && w.texts.Keys == texts.Keys && forall k :: k in texts ==> Became(log, texts[k], w.texts[k])
    case StrArr(strings) =>
      && w.StrArr? && |w.strings| == |strings|
      && forall i :: 0 <= i < |strings| ==> Became(log, strings[i], w.strings[i])
    case Other(_) => w == v
  }

  /** The log may go on before and after. */
  lemma BecameMore(a: seq<Entry>, log: seq<Entry>, b: seq<Entry>, s: string, t: string)
    requires Became(log, s, t)
    ensures Became(a + log + b, s, t)
  {
    var i :| 0 <= i < |log| && log[i].text == s && log[i].out == t;
    assert (a + log + b)[|a| + i] == log[i];
  }

  lemma {:induction false} TreeMappedMore(a: seq<Entry>, log: seq<Entry>, b: seq<Entry>, v: Tree, w: Tree)
    requires TreeMapped(log, v, w)
    ensures TreeMapped(a + log + b, v, w)
  {
    hide Became;
    match v
    case Str(s) => BecameMore(a, log, b, s, w.s);
    case Obj(fields) =>
      forall k | k in fields
        ensures TreeMapped(a + log + b, fields[k], w.fields[k])
      {
        TreeMappedMore(a, log, b, fields[k], w.fields[k]);
      }
    case Arr(items) =>
      forall i | 0 <= i < |items|
        ensures TreeMapped(a + log + b, items[i], w.items[i])
      {
        TreeMappedMore(a, log, b, items[i], w.items[i]);
      }
    case StrObj(texts) =>
      forall k | k in texts
        ensures Became(a + log + b, texts[k], w.texts[k])
      {
        BecameMore(a, log, b, texts[k], w.texts[k]);
      }
    case StrArr(strings) =>
      forall i | 0 <= i < |strings|
        ensures Became(a + log + b, strings[i], w.strings[i])
      {
        BecameMore(a, log, b, strings[i], w.strings[i]);
      }
    case Other(_) =>
  }

  /** All strings of a payload unredacted, n passes each. */
  function TreeUnredacted(m: Entries, n: nat, v: Tree): Tree
  {
    match v
    case Str(s) => Str(Passes(m, n, s))
    case Obj(fields) => Obj(map k | k in fields :: TreeUnredacted(m, n, fields[k]))
    case Arr(items) => Arr(seq(|items|, i requires 0 <= i < |items| => TreeUnredacted(m, n, items[i])))
    case StrObj(texts) => StrObj(map k | k in texts :: Passes(m, n, texts[k]))
    case StrArr(strings) => StrArr(seq(|strings|, i requires 0 <= i < |strings| => Passes(m, n, strings[i])))
    case Other(_) => v
  }

  /** s is one of the strings of the payload. */
  predicate IsLeaf(v: Tree, s: string)
  {
    match v
    case Str(t) => t == s
    case Obj(fields) => exists k :: k in fields && IsLeaf(fields[k], s)
    case Arr(items) => exists i :: 0 <= i < |items| && IsLeaf(items[i], s)
    case StrObj(texts) => exists k :: k in texts && texts[k] == s
    case StrArr(strings) => exists i :: 0 <= i < |strings| && strings[i] == s
    case Other(_) => false
  }

  /** n passes restore every string of the payload that was redacted. */
  ghost predicate Restores(m: Entries, n: nat, log: seq<Entry>, v: Tree)
  {
    forall i :: 0 <= i < |log| && IsLeaf(v, log[i].text) ==> Passes(m, n, log[i].out) == log[i].text
  }

  lemma TextRestored(m: Entries, n: nat, log: seq<Entry>, v: Tree, s: string, t: string)
    requires Restores(m, n, log, v) && Became(log, s, t) && IsLeaf(v, s)
    ensures Passes(m, n, t) == s
  {
    hide IsLeaf;
    var i :| 0 <= i < |log| && log[i].text == s && log[i].out == t;
    assert Passes(m, n, log[i].out) == log[i].text;
  }

  /** A part of a payload has no strings of its own. */
  ghost predicate Within(part: Tree, v: Tree)
  {
    forall s :: IsLeaf(part, s) ==> IsLeaf(v, s)
  }

  lemma RestoresPart(m: Entries, n: nat, log: seq<Entry>, v: Tree, part: Tree)
    requires Restores(m, n, log, v) && Within(part, v)
    ensures Restores(m, n, log, part)
  {
    hide IsLeaf, Passes;
  }

  lemma {:induction false} TreeRestored(m: Entries, n: nat, log: seq<Entry>, v: Tree, w: Tree)
    requires Restores(m, n, log, v) && TreeMapped(log, v, w)
    ensures TreeUnredacted(m, n, w) == v
  {
    hide Restores, Became, Passes;
    match v
    case Str(s) => TextRestored(m, n, log, v, s, w.s);
    case Obj(fields) =>
      forall k | k in fields
        ensures TreeUnredacted(m, n, w.fields[k]) == fields[k]
      {
        assert Within(fields[k], v);
        RestoresPart(m, n, log, v, fields[k]);
        TreeRestored(m, n, log, fields[k], w.fields[k]);
      }
      assert TreeUnredacted(m, n, w).fields == fields;
    case Arr(items) =>
      forall i | 0 <= i < |items|
        ensures TreeUnredacted(m, n, w.items[i]) == items[i]
      {
        assert Within(items[i], v);
        RestoresPart(m, n, log, v, items[i]);
        TreeRestored(m, n, log, items[i], w.items[i]);
      }
      assert TreeUnredacted(m, n, w).items == items;
    case StrObj(texts) =>
      forall k | k in texts
        ensures Passes(m, n, w.texts[k]) == texts[k]
      {
        TextRestored(m, n, log, v, texts[k], w.texts[k]);
      }
      assert TreeUnredacted(m, n, w).texts == texts;
    case StrArr(strings) =>
      forall i | 0 <= i < |strings|
        ensures Passes(m, n, w.strings[i]) == strings[i]
      {
        TextRestored(m, n, log, v, strings[i], w.strings[i]);
      }
      assert TreeUnredacted(m, n, w).strings == strings;
    case Other(_) =>
  }

  /** No key of the table occurs in any string of the payload. */
  ghost predicate NoKeyInLeaves(m: Entries, v: Tree)
  {
    forall s :: IsLeaf(v, s) ==> NoKeyIn(m, s)
  }

  /**
   The payload round trip: whatever the order in which the strings were visited, unredacting with the
   final table, or a later one, restores the payload.
   */
  lemma PayloadRoundTrip(f: Filters, m: Entries, log: seq<Entry>, fullInput: string, later: Entries, v: Tree, w: Tree)
    requires ValidFilters(f) && Stable(m) && LetterKeys(m)
    requires Logged(f, m, log, fullInput) && LogSeparated(f, m, log)
    requires Extends(TableAfter(m, log), later) && LetterKeys(later) && NoKeyInLeaves(later, v)
    requires TreeMapped(log, v, w)
    ensures TreeUnredacted(later, Enabled(f), w) == v
  {
    hide ValidFilters, Stable, LetterKeys, Logged, LogSeparated, Extends, TableAfter, TreeMapped, Passes, NoKeyIn,
      Run.Redacted, Enabled, IsLeaf;
    forall i | 0 <= i < |log| && IsLeaf(v, log[i].text)
      ensures Passes(later, Enabled(f), log[i].out) == log[i].text
    {
      EveryTextRestored(f, m, log, fullInput, later, i);
    }
    TreeRestored(later, Enabled(f), log, v, w);
  }

  /** Every string of a payload that was mapped has been visited. */
  lemma {:induction false} LeafVisited(log: seq<Entry>, v: Tree, w: Tree, s: string)
    requires TreeMapped(log, v, w) && IsLeaf(v, s)
    ensures exists i :: 0 <= i < |log| && log[i].text == s
  {
    match v
    case Str(_) =>
    case Obj(fields) =>
      var k :| k in fields && IsLeaf(fields[k], s);
      LeafVisited(log, fields[k], w.fields[k], s);
    case Arr(items) =>
      var i :| 0 <= i < |items| && IsLeaf(items[i], s);
      LeafVisited(log, items[i], w.items[i], s);
    case StrObj(texts) =>
      var k :| k in texts && texts[k] == s;
      assert Became(log, texts[k], w.texts[k]);
    case StrArr(strings) =>
      var i :| 0 <= i < |strings| && strings[i] == s;
      assert Became(log, strings[i], w.strings[i]);
    case Other(_) =>
  }

  /** A function that keeps every string keeps the payload. */
  lemma {:induction false} TreeKept(log: seq<Entry>, v: Tree, w: Tree)
    requires TreeMapped(log, v, w) && forall i :: 0 <= i < |log| ==> log[i].out == log[i].text
    ensures w == v
  {
    match v
    case Str(_) =>
    case Obj(fields) =>
      forall k | k in fields
        ensures w.fields[k] == fields[k]
      {
        TreeKept(log, fields[k], w.fields[k]);
      }
      assert w.fields == fields;
    case Arr(items) =>
      forall i | 0 <= i < |items|
        ensures w.items[i] == items[i]
      {
        TreeKept(log, items[i], w.items[i]);
      }
      assert w.items == items;
    case StrObj(texts) =>
      assert forall k :: k in texts ==> Became(log, texts[k], w.texts[k]);
      assert w.texts == texts;
    case StrArr(strings) =>
      assert forall i :: 0 <= i < |strings| ==> Became(log, strings[i], w.strings[i]);
      assert w.strings == strings;
    case Other(_) =>
  }

  /** A function that unredacts every string unredacts the payload. */
  lemma {:induction false} TreeIsUnredacted(m: Entries, n: nat, log: seq<Entry>, v: Tree, w: Tree)
    requires TreeMapped(log, v, w) && forall i :: 0 <= i < |log| ==> log[i].out == Passes(m, n, log[i].text)
    ensures w == TreeUnredacted(m, n, v)
  {
    hide Passes;
    match v
    case Str(_) =>
    case Obj(fields) =>
      forall k | k in fields
        ensures w.fields[k] == TreeUnredacted(m, n, fields[k])
      {
        TreeIsUnredacted(m, n, log, fields[k], w.fields[k]);
      }
      assert w.fields == TreeUnredacted(m, n, v).fields;
    case Arr(items) =>
      forall i | 0 <= i < |items|
        ensures w.items[i] == TreeUnredacted(m, n, items[i])
      {
        TreeIsUnredacted(m, n, log, items[i], w.items[i]);
      }
      assert w.items == TreeUnredacted(m, n, v).items;
    case StrObj(texts) =>
      assert forall k :: k in texts ==> Became(log, texts[k], w.texts[k]);
      assert w.texts == TreeUnredacted(m, n, v).texts;
    case StrArr(strings) =>
      assert forall i :: 0 <= i < |strings| ==> Became(log, strings[i], w.strings[i]);
      assert w.strings == TreeUnredacted(m, n, v).strings;
    case Other(_) =>
  }
}
