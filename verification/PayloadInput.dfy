/**
 piiplugin/adk/redactor.go: the payload round trip with hypotheses on the payload that comes in and on the
 table at first.
 */
module PayloadInput {
  import opened Text
  import opened Table
  import opened Unredaction
  import opened Pieces
  import opened PiiLaws
  import opened InputLaws
  import opened Payload

  /** All pieces of all strings in the order in which they were made. */
  function AllPieces(log: seq<Entry>): seq<Piece>
  {
    if log == [] then [] else log[0].run.All() + AllPieces(log[1..])
  }

  /** The table is the one that all these pieces lead to. */
  lemma {:induction false} LogIsOneRun(f: Filters, m: Entries, log: seq<Entry>, fullInput: string)
    requires Logged(f, m, log, fullInput)
    ensures Calls(m, AllPieces(log), fullInput) && After(m, AllPieces(log)) == TableAfter(m, log)
    decreases |log|
  {
    hide Redaction, Calls, After, SeparatedCalls;
    if log == [] {
      NothingCalledYet(m, fullInput);
    } else {
      var ps, m1 := log[0].run.All(), After(m, log[0].run.All());
      LogIsOneRun(f, m1, log[1..], fullInput);
      CallsConcat(m, ps, AllPieces(log[1..]), fullInput);
    }
  }

  lemma NothingCalledYet(m: Entries, fullInput: string)
    ensures Calls(m, [], fullInput) && After(m, []) == m
  {
  }

  lemma {:induction false} LogIsPlain(f: Filters, m: Entries, log: seq<Entry>, fullInput: string)
    requires ValidFilters(f) && Stable(m) && LetterKeys(m)
    requires Logged(f, m, log, fullInput) && LogSeparated(f, m, log)
    ensures Plain(AllPieces(log))
    decreases |log|
  {
    hide ValidFilters, Stable, LetterKeys, Redaction, Calls, WellSpaced, SeparatedCalls, After;
    if log != [] {
      RunKeepsTable(f, m, log[0].text, fullInput, log[0].run);
      LogIsPlain(f, After(m, log[0].run.All()), log[1..], fullInput);
    }
  }

  /** Addresses are well spaced in every string, and words drawn are separated from the keys. */
  ghost predicate LogSpaced(f: Filters, m: Entries, log: seq<Entry>)
    decreases |log|
  {
    log != [] ==>
      && WellSpaced(f.email, log[0].text) && SeparatedCalls(m, log[0].run.All())
      && LogSpaced(f, After(m, log[0].run.All()), log[1..])
  }

  lemma {:induction false} SpacedIsSeparated(f: Filters, m: Entries, log: seq<Entry>, fullInput: string)
    requires ValidFilters(f) && NamesAreWords(f) && Stable(m) && LetterKeys(m)
    requires Logged(f, m, log, fullInput) && LogSpaced(f, m, log)
    ensures LogSeparated(f, m, log)
    decreases |log|
  {
    hide ValidFilters, NamesAreWords, Stable, LetterKeys, Redaction, Calls, WellSpaced, SeparatedCalls, After;
    if log != [] {
      var run := log[0].run;
      GoodInputIsGood(f, m, log[0].text, fullInput, run);
      RunKeepsTable(f, m, log[0].text, fullInput, run);
      SpacedIsSeparated(f, After(m, run.All()), log[1..], fullInput);
    }
  }

  /** All strings of the payload are part of the text. */
  ghost predicate Covers(text: string, v: Tree)
  {
    forall s :: IsLeaf(v, s) ==> Contains(text, s)
  }

  /** In no string of the payload there is a key at first, nor one adapted to another casing later. */
  ghost predicate LeavesAvoid(m: Entries, log: seq<Entry>, v: Tree)
  {
    forall s :: IsLeaf(v, s) ==> NoKeyIn(m, s) && AdaptedAvoid(m, AllPieces(log), s)
  }

  /** Then no key of the final table occurs in the payload; and only then. */
  lemma LeavesAvoidIff(f: Filters, m: Entries, log: seq<Entry>, fullInput: string, v: Tree)
    requires ValidFilters(f) && Stable(m) && LetterKeys(m)
    requires Logged(f, m, log, fullInput) && LogSeparated(f, m, log) && Covers(fullInput, v)
    ensures NoKeyInLeaves(TableAfter(m, log), v) <==> LeavesAvoid(m, log, v)
  {
    hide ValidFilters, Stable, LetterKeys, Logged, LogSeparated, NoKeyIn, Contains, IsLeaf, AdaptedAvoid, AllPieces,
      TableAfter, After, Plain, Calls;
    LogIsOneRun(f, m, log, fullInput);
    LogIsPlain(f, m, log, fullInput);
    forall s | IsLeaf(v, s)
      ensures NoKeyIn(TableAfter(m, log), s) <==> NoKeyIn(m, s) && AdaptedAvoid(m, AllPieces(log), s)
    {
      if NoKeyIn(m, s) {
        CheckedKeysAvoidIff(m, AllPieces(log), fullInput, s);
      } else if NoKeyIn(After(m, AllPieces(log)), s) {
        KeysStay(m, AllPieces(log), s);
      }
    }
  }

  /** What the payload round trip assumes of filters, table and strings before anything is redacted. */
  ghost predicate GoodPayload(f: Filters, m: Entries, log: seq<Entry>)
  {
    ValidFilters(f) && NamesAreWords(f) && Stable(m) && LetterKeys(m) && LogSpaced(f, m, log)
  }

  /** The payload round trip, from the payload that came in. */
  lemma PayloadInputRoundTrip(f: Filters, m: Entries, log: seq<Entry>, fullInput: string, v: Tree, w: Tree)
    requires GoodPayload(f, m, log) && Logged(f, m, log, fullInput)
    requires Covers(fullInput, v) && LeavesAvoid(m, log, v) && TreeMapped(log, v, w)
    ensures TreeUnredacted(TableAfter(m, log), Enabled(f), w) == v
  {
    hide ValidFilters, NamesAreWords, Stable, LetterKeys, LogSpaced, Logged, LogSeparated, Covers, LeavesAvoid,
      TreeMapped, TableAfter, NoKeyInLeaves, Extends, TreeUnredacted;
    SpacedIsSeparated(f, m, log, fullInput);
    LeavesAvoidIff(f, m, log, fullInput, v);
    LogKeepsTable(f, m, log, fullInput);
    SelfExtends(TableAfter(m, log));
    PayloadRoundTrip(f, m, log, fullInput, TableAfter(m, log), v, w);
  }
}
