/**
 piiplugin/adk/redactor.go: what the tool callbacks do with the payloads, the composite filter being
 the redactor. A missing map is null.
 */
module Redactor {
  import opened Text
  import opened Table
  import opened Unredaction
  import opened Pieces
  import opened NameGen
  import opened PiiLaws
  import opened PiiFilter
  import opened Payload
  import opened Visits
  import opened PayloadInput
  import opened Values

  /** The payload as a value; a missing map has no entries. */
  ghost function Contents(m: JsonMap?, sh: Shape): Tree
    requires m != null ==> Fits(m, sh)
    reads m, Objs(sh)
  {
    if m == null then Obj(map[]) else Value(JMap(m), sh)
  }

  ghost predicate Fits(m: JsonMap, sh: Shape)
    reads Objs(sh)
  {
    sh.MapShape? && sh.m == m && Apart(sh) && Holds(JMap(m), sh)
  }

  lemma {:induction false} JoinedContains(log: seq<Entry>, i: nat)
    requires i < |log|
    ensures Contains(Joined(log), log[i].text)
  {
    var last := |log| - 1;
    var front := log[..last];
    var tail := log[last].text + " ";
    if i == last {
      ContainsItself(log[last].text);
      ContainsPart(Joined(front), log[last].text, " ", log[last].text);
      assert Joined(front) + log[last].text + " " == Joined(front) + tail;
    } else {
      JoinedContains(front, i);
      ContainsPart("", Joined(front), tail, log[i].text);
      assert "" + Joined(front) + tail == Joined(front) + tail;
    }
  }

  lemma JoinedCovers(log: seq<Entry>, v: Tree, w: Tree)
    requires TreeMapped(log, v, w)
    ensures Covers(Joined(log), v)
  {
    hide Contains, TreeMapped, IsLeaf, Joined;
    forall s | IsLeaf(v, s)
      ensures Contains(Joined(log), s)
    {
      LeafVisited(log, v, w, s);
      var i :| 0 <= i < |log| && log[i].text == s;
      JoinedContains(log, i);
    }
  }

  /** filter/values.go, ToolValuesText: all strings of a payload in one text. The payload stays. */
  method ToolValuesText(m: JsonMap?, ghost sh: Shape) returns (text: string)
    requires m != null ==> Fits(m, sh)
    modifies if m == null then {} else Objs(sh)
    ensures m != null ==> Fits(m, sh)
    ensures Contents(m, sh) == old(Contents(m, sh))
    ensures Covers(text, Contents(m, sh))
  {
    hide Covers, Contains, TreeMapped, Visited, IsLeaf, Joined;
    if m == null {
      NothingToCover("");
      return "";
    }
    var sb := new Builder();
    ghost var v := Value(JMap(m), sh);
    var ok;
    ghost var log;
    ok, log := MapToolValues(m, CollectInto(sb), sh);
    VisitedIsMapped(log, v, Value(JMap(m), sh));
    assert "" + Joined(log) == Joined(log);
    TreeKept(log, v, Value(JMap(m), sh));
    JoinedCovers(log, v, v);
    text := sb.text;
  }

  lemma NothingToCover(text: string)
    ensures Covers(text, Obj(map[]))
  {
  }

  lemma CoversMore(a: string, b: string, v: Tree)
    ensures Covers(a, v) || Covers(b, v) ==> Covers(a + b, v)
  {
    forall s | IsLeaf(v, s) && (Contains(a, s) || Contains(b, s))
      ensures Contains(a + b, s)
    {
      if Contains(a, s) {
        ContainsPart("", a, b, s);
        assert "" + a + b == a + b;
      } else {
        ContainsPart(a, b, "", s);
        assert a + b + "" == a + b;
      }
    }
  }

  /** Restores the original values in the tool arguments. */
  method BeforeToolCallback(f: PiiFilter, args: JsonMap?, ghost sh: Shape)
    requires f.Valid() && (args != null ==> Fits(args, sh) && FilterObjs(f) !! Objs(sh))
    modifies if args == null then {} else Objs(sh)
    ensures f.Valid() && f.Config() == old(f.Config()) && f.replacements == old(f.replacements)
    ensures f.replacements.m == old(f.replacements.m)
    ensures args != null ==> Fits(args, sh)
    ensures Contents(args, sh) == TreeUnredacted(f.replacements.m, Enabled(f.Config()), old(Contents(args, sh)))
  {
    hide TreeMapped, Visited, Passes;
    if args != null {
      ghost var v := Value(JMap(args), sh);
      var ok;
      ghost var log;
      ok, log := MapToolValues(args, UnredactWith(f), sh);
      VisitedIsMapped(log, v, Value(JMap(args), sh));
      TreeIsUnredacted(f.replacements.m, Enabled(f.Config()), log, v, Value(JMap(args), sh));
    }
  }

  /** What a tool call leaves: every string of arguments and result redacted, one after another. */
  ghost predicate ToolRedacted(f: Filters, m0: Entries, log: seq<Entry>, fullInput: string, m1: Entries)
  {
    Logged(f, m0, log, fullInput) && m1 == TableAfter(m0, log)
  }

  /** All strings of arguments and result in one text. The payloads stay. */
  method BothTexts(args: JsonMap?, result: JsonMap?, ghost argShape: Shape, ghost resultShape: Shape)
    returns (text: string)
    requires args != null ==> Fits(args, argShape)
    requires result != null ==> Fits(result, resultShape)
    requires args != null && result != null ==> Objs(argShape) !! Objs(resultShape)
    modifies if args == null then {} else Objs(argShape)
    modifies if result == null then {} else Objs(resultShape)
    ensures args != null ==> Fits(args, argShape)
    ensures result != null ==> Fits(result, resultShape)
    ensures Contents(args, argShape) == old(Contents(args, argShape))
    ensures Contents(result, resultShape) == old(Contents(result, resultShape))
    ensures Covers(text, Contents(args, argShape)) && Covers(text, Contents(result, resultShape))
  {
    hide Covers, Holds, Value, Apart, IsLeaf;
    var argText := ToolValuesText(args, argShape);
    var resultText := ToolValuesText(result, resultShape);
    text := argText + resultText;
    CoversMore(argText, resultText, Contents(args, argShape));
    CoversMore(argText, resultText, Contents(result, resultShape));
  }

  /** First the strings of v, then those of v2, each once. */
  ghost predicate VisitedInTurn(log: seq<Entry>, v: Tree, w: Tree, v2: Tree, w2: Tree)
  {
    exists cut :: 0 <= cut <= |log| && Visited(log[..cut], v, w) && Visited(log[cut..], v2, w2)
  }

  lemma BothVisited(a: seq<Entry>, b: seq<Entry>, v: Tree, w: Tree, v2: Tree, w2: Tree)
    requires Visited(a, v, w) && Visited(b, v2, w2)
    ensures VisitedInTurn(a + b, v, w, v2, w2)
  {
    hide Visited;
    assert (a + b)[..|a|] == a && (a + b)[|a|..] == b;
  }

  lemma BothMapped(log: seq<Entry>, v: Tree, w: Tree, v2: Tree, w2: Tree)
    requires VisitedInTurn(log, v, w, v2, w2)
    ensures TreeMapped(log, v, w) && TreeMapped(log, v2, w2)
  {
    hide Visited, TreeMapped;
    var cut :| 0 <= cut <= |log| && Visited(log[..cut], v, w) && Visited(log[cut..], v2, w2);
    var a, b := log[..cut], log[cut..];
    VisitedIsMapped(a, v, w);
    VisitedIsMapped(b, v2, w2);
    TreeMappedMore([], a, b, v, w);
    TreeMappedMore(a, b, [], v2, w2);
    assert [] + a + b == log && a + b + [] == log;
  }

  /** Arguments and result redacted, one after the other. */
  method RedactBoth(f: PiiFilter, args: JsonMap?, result: JsonMap?, fullInput: string, rnd: Rand,
                    ghost argShape: Shape, ghost resultShape: Shape)
    returns (ok: bool, ghost log: seq<Entry>)
    requires f.Valid()
    requires args != null ==> Fits(args, argShape) && (FilterObjs(f) + {rnd}) !! Objs(argShape)
    requires result != null ==> Fits(result, resultShape) && (FilterObjs(f) + {rnd}) !! Objs(resultShape)
    requires args != null && result != null ==> Objs(argShape) !! Objs(resultShape)
    modifies f.replacements, rnd
    modifies if args == null then {} else Objs(argShape)
    modifies if result == null then {} else Objs(resultShape)
    ensures f.Valid() && f.Config() == old(f.Config()) && f.replacements == old(f.replacements)
    ensures ok ==> ToolRedacted(f.Config(), old(f.replacements.m), log, fullInput, f.replacements.m)
    ensures ok && args != null ==> Fits(args, argShape)
    ensures ok && result != null ==> Fits(result, resultShape)
    ensures ok ==> VisitedInTurn(log, old(Contents(args, argShape)), Contents(args, argShape),
                                 old(Contents(result, resultShape)), Contents(result, resultShape))
  {
    hide Visited, VisitedInTurn, ToolRedacted, PiiFilter.Valid, PiiFilter.Config, Holds, Value, Apart;
    ghost var m0 := f.replacements.m;
    log := [];
    ghost var v1, v2 := Contents(args, argShape), Contents(result, resultShape);
    ghost var log1: seq<Entry>;
    ok, log1 := RedactPayload(f, args, fullInput, rnd, argShape);
    if !ok {
      return;
    }
    ghost var m1 := f.replacements.m;
    ghost var log2: seq<Entry>;
    ok, log2 := RedactPayload(f, result, fullInput, rnd, resultShape);
    if !ok {
      return;
    }
    log := log1 + log2;
    ToolRedactedConcat(f.Config(), m0, log1, m1, log2, f.replacements.m, fullInput);
    BothVisited(log1, log2, v1, Contents(args, argShape), v2, Contents(result, resultShape));
  }

  /**
   Redacts the tool arguments again, and the tool result. The input that drawn words are checked
   against is all the text of both. Not ok when the draws run out.
   */
  method AfterToolCallback(f: PiiFilter, args: JsonMap?, result: JsonMap?, rnd: Rand,
                           ghost argShape: Shape, ghost resultShape: Shape)
    returns (ok: bool, fullInput: string, ghost log: seq<Entry>)
    requires f.Valid()
    requires args != null ==> Fits(args, argShape) && (FilterObjs(f) + {rnd}) !! Objs(argShape)
    requires result != null ==> Fits(result, resultShape) && (FilterObjs(f) + {rnd}) !! Objs(resultShape)
    requires args != null && result != null ==> Objs(argShape) !! Objs(resultShape)
    modifies f.replacements, rnd
    modifies if args == null then {} else Objs(argShape)
    modifies if result == null then {} else Objs(resultShape)
    ensures f.Valid() && f.Config() == old(f.Config()) && f.replacements == old(f.replacements)
    ensures Covers(fullInput, old(Contents(args, argShape))) && Covers(fullInput, old(Contents(result, resultShape)))
    ensures ok ==> ToolRedacted(f.Config(), old(f.replacements.m), log, fullInput, f.replacements.m)
    ensures ok && args != null ==> Fits(args, argShape)
    ensures ok && result != null ==> Fits(result, resultShape)
    ensures ok ==> VisitedInTurn(log, old(Contents(args, argShape)), Contents(args, argShape),
                                 old(Contents(result, resultShape)), Contents(result, resultShape))
  {
    hide Covers, VisitedInTurn, ToolRedacted, PiiFilter.Valid, PiiFilter.Config, Holds, Value, Apart, IsLeaf;
    fullInput := BothTexts(args, result, argShape, resultShape);
    ok, log := RedactBoth(f, args, result, fullInput, rnd, argShape, resultShape);
  }

  lemma ToolRedactedConcat(f: Filters, m0: Entries, a: seq<Entry>, m1: Entries, b: seq<Entry>,
                           m2: Entries, fullInput: string)
    requires ToolRedacted(f, m0, a, fullInput, m1) && ToolRedacted(f, m1, b, fullInput, m2)
    ensures ToolRedacted(f, m0, a + b, fullInput, m2)
  {
    LogConcat(f, m0, a, b, fullInput);
  }

  method RedactPayload(f: PiiFilter, m: JsonMap?, fullInput: string, rnd: Rand, ghost sh: Shape)
    returns (ok: bool, ghost log: seq<Entry>)
    requires f.Valid()
    requires m != null ==> Fits(m, sh) && (FilterObjs(f) + {rnd}) !! Objs(sh)
    modifies f.replacements, rnd
    modifies if m == null then {} else Objs(sh)
    ensures f.Valid() && f.Config() == old(f.Config()) && f.replacements == old(f.replacements)
    ensures FilterObjs(f) == old(FilterObjs(f))
    ensures ok ==> ToolRedacted(f.Config(), old(f.replacements.m), log, fullInput, f.replacements.m)
    ensures ok && m != null ==> Fits(m, sh)
    ensures ok ==> Visited(log, old(Contents(m, sh)), Contents(m, sh))
  {
    hide Visited, Logged;
    log := [];
    if m == null {
      NothingLogged(f.Config(), f.replacements.m, fullInput);
      return true, [];
    }
    ok, log := MapToolValues(m, RedactWith(f, fullInput, rnd), sh);
  }

  lemma NothingLogged(f: Filters, m: Entries, fullInput: string)
    ensures ToolRedacted(f, m, [], fullInput, m) && Visited([], Obj(map[]), Obj(map[]))
  {
    var keys: seq<string> := [];
    assert OrderOf(keys, {}) && FieldsVisited([], keys, Obj(map[]), Obj(map[]));
  }

  /** What the payload round trip assumes of the table at first and of the strings redacted on it. */
  ghost predicate GoodLog(f: Filters, m0: Entries, log: seq<Entry>)
  {
    ValidFilters(f) && Stable(m0) && LetterKeys(m0) && LogSeparated(f, m0, log)
  }

  /** What it assumes of the payload: either of the hypotheses, on the input or on the final table. */
  ghost predicate CanReturn(f: Filters, m0: Entries, log: seq<Entry>, m1: Entries, v: Tree)
  {
    || (GoodLog(f, m0, log) && NoKeyInLeaves(m1, v))
    || (GoodPayload(f, m0, log) && LeavesAvoid(m0, log, v))
  }

  lemma LogRoundTrip(f: Filters, m0: Entries, log: seq<Entry>, fullInput: string, m1: Entries, v: Tree, w: Tree)
    requires ToolRedacted(f, m0, log, fullInput, m1) && TreeMapped(log, v, w)
    requires Covers(fullInput, v) && CanReturn(f, m0, log, m1, v)
    ensures TreeUnredacted(m1, Enabled(f), w) == v
  {
    hide ValidFilters, Stable, LetterKeys, LogSeparated, NoKeyInLeaves, Logged, TableAfter, TreeMapped, Extends, Covers,
      GoodPayload, LeavesAvoid, TreeUnredacted;
    if GoodPayload(f, m0, log) && LeavesAvoid(m0, log, v) {
      PayloadInputRoundTrip(f, m0, log, fullInput, v, w);
    } else {
      LogKeepsTable(f, m0, log, fullInput);
      SelfExtends(m1);
      PayloadRoundTrip(f, m0, log, fullInput, m1, v, w);
    }
  }

  /** Redacted after one tool call and restored before the next, both payloads are what they were. */
  method AfterThenBefore(f: PiiFilter, args: JsonMap, result: JsonMap, rnd: Rand,
                         ghost argShape: Shape, ghost resultShape: Shape)
    returns (ok: bool, ghost log: seq<Entry>)
    requires f.Valid()
    requires Fits(args, argShape) && (FilterObjs(f) + {rnd}) !! Objs(argShape)
    requires Fits(result, resultShape) && (FilterObjs(f) + {rnd}) !! Objs(resultShape)
    requires Objs(argShape) !! Objs(resultShape)
    modifies f.replacements, rnd, Objs(argShape), Objs(resultShape)
    ensures f.Valid() && f.replacements == old(f.replacements)
    ensures ok ==> Fits(args, argShape) && Fits(result, resultShape)
    ensures ok ==>
              var m0, m1 := old(f.replacements.m), f.replacements.m;
              && (CanReturn(f.Config(), m0, log, m1, old(Contents(args, argShape))) ==>
                    Contents(args, argShape) == old(Contents(args, argShape)))
              && (CanReturn(f.Config(), m0, log, m1, old(Contents(result, resultShape))) ==>
                    Contents(result, resultShape) == old(Contents(result, resultShape)))
  {
    hide Covers, TreeMapped, VisitedInTurn, ToolRedacted, PiiFilter.Valid, PiiFilter.Config, Holds, Value, Apart,
      CanReturn, Enabled,
      TreeUnredacted;
    ghost var m0, v1, v2 := f.replacements.m, Contents(args, argShape), Contents(result, resultShape);
    var fullInput;
    ok, fullInput, log := AfterToolCallback(f, args, result, rnd, argShape, resultShape);
    if !ok {
      return;
    }
    ghost var m1, w1, w2 := f.replacements.m, Contents(args, argShape), Contents(result, resultShape);
    BothMapped(log, v1, w1, v2, w2);
    BeforeToolCallback(f, args, argShape);
    BeforeToolCallback(f, result, resultShape);
    if CanReturn(f.Config(), m0, log, m1, v1) {
      LogRoundTrip(f.Config(), m0, log, fullInput, m1, v1, w1);
    }
    if CanReturn(f.Config(), m0, log, m1, v2) {
      LogRoundTrip(f.Config(), m0, log, fullInput, m1, v2, w2);
    }
  }
}
