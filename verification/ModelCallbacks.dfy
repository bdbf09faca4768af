/**
 piiplugin/adk/redactor.go: what the model callbacks do with the parts of a request and of a response.
 The parts of all contents are taken as one list, without the missing ones.
 */
module ModelCallbacks {
  import opened Text
  import opened Table
  import opened Unredaction
  import opened NameGen
  import opened PiiLaws
  import opened PiiFilter
  import opened Payload
  import opened Visits
  import opened Values
  import opened Redactor

  class Part {
    var text: string

    constructor (text: string)
      ensures this.text == text
    {
      this.text := text;
    }
  }

  predicate Distinct(parts: seq<Part>)
  {
    forall i, j :: 0 <= i < |parts| && 0 <= j < |parts| && i != j ==> parts[i] != parts[j]
  }

  /** The text of a part before and after the call: an empty one is skipped. */
  ghost predicate Treated(log: seq<Entry>, was: string, now: string)
  {
    if was == "" then now == "" else Became(log, was, now)
  }

  /** One part: an empty one is not visited. */
  predicate VisitedOnce(log: seq<Entry>, was: string, now: string)
  {
    if was == "" then now == "" && log == [] else OneVisit(log, was, now)
  }

  /** The log has one entry for each text that is not empty, in their order. */
  predicate InTurn(log: seq<Entry>, was: seq<string>, now: seq<string>)
    requires |was| == |now|
    decreases |was|
  {
    if was == [] then log == []
    else
      var k, last := |was| - 1, |log| - 1;
      if was[k] == "" then now[k] == "" && InTurn(log, was[..k], now[..k])
      else
        && log != [] && log[last].text == was[k] && log[last].out == now[k]
        && InTurn(log[..last], was[..k], now[..k])
  }

  lemma InTurnMore(log: seq<Entry>, was: seq<string>, now: seq<string>, more: seq<Entry>, s: string, t: string)
    requires |was| == |now| && InTurn(log, was, now) && VisitedOnce(more, s, t)
    ensures InTurn(log + more, was + [s], now + [t])
  {
    assert (was + [s])[..|was|] == was && (now + [t])[..|now|] == now;
    if s == "" {
      assert log + more == log;
    } else {
      assert (log + more)[..|log|] == log;
    }
  }

  lemma {:induction false} InTurnTreats(log: seq<Entry>, was: seq<string>, now: seq<string>, i: nat)
    requires |was| == |now| && InTurn(log, was, now) && i < |was|
    ensures Treated(log, was[i], now[i])
    decreases |was|
  {
    hide Became;
    var k := |was| - 1;
    if was[k] == "" {
      if i < k {
        InTurnTreats(log, was[..k], now[..k], i);
      }
    } else {
      var front, last := log[..|log| - 1], log[|log| - 1..];
      assert front + last + [] == log && [] + front + last == log;
      if i < k {
        InTurnTreats(front, was[..k], now[..k], i);
        TreatedMore(front, last, was[i], now[i]);
      } else {
        LastBecame(log);
      }
    }
  }

  lemma LastBecame(log: seq<Entry>)
    requires log != []
    ensures Became(log, log[|log| - 1].text, log[|log| - 1].out)
  {
  }

  lemma TreatedMore(a: seq<Entry>, b: seq<Entry>, was: string, now: string)
    requires Treated(a, was, now)
    ensures Treated(a + b, was, now)
  {
    hide Became;
    if was != "" {
      BecameMore([], a, b, was, now);
      assert [] + a + b == a + b;
    }
  }

  function Texts(parts: seq<Part>): (r: seq<string>)
    reads parts
    ensures |r| == |parts| && forall i :: 0 <= i < |parts| ==> r[i] == parts[i].text
  {
    seq(|parts|, i requires 0 <= i < |parts| reads parts => parts[i].text)
  }

  /** All texts, each with a space behind it. */
  function WithSpaces(texts: seq<string>): string
  {
    if texts == [] then "" else WithSpaces(texts[..|texts| - 1]) + texts[|texts| - 1] + " "
  }

  lemma {:induction false} SpacesContain(texts: seq<string>, i: nat)
    requires i < |texts|
    ensures Contains(WithSpaces(texts), texts[i])
  {
    hide Contains;
    var k := |texts| - 1;
    var front := WithSpaces(texts[..k]);
    if i == k {
      ContainsItself(texts[k]);
      ContainsPart(front, texts[k], " ", texts[k]);
    } else {
      SpacesContain(texts[..k], i);
      ContainsPart("", front, texts[k] + " ", texts[i]);
      assert "" + front + (texts[k] + " ") == WithSpaces(texts);
    }
  }

  /** The texts of all parts, each with a space behind it. */
  method FullInputText(parts: seq<Part>) returns (text: string)
    ensures text == WithSpaces(Texts(parts))
    ensures forall i :: 0 <= i < |parts| ==> Contains(text, parts[i].text)
  {
    hide Contains;
    text := "";
    ghost var texts := Texts(parts);
    for n := 0 to |parts|
      invariant text == WithSpaces(texts[..n])
    {
      assert texts[..n + 1][..n] == texts[..n];
      text := text + parts[n].text;
      text := text + " ";
    }
    assert texts[..|parts|] == texts;
    forall i | 0 <= i < |parts|
      ensures Contains(text, parts[i].text)
    {
      SpacesContain(texts, i);
    }
  }

  /** One part, redacted in place. Not ok when the draws run out. */
  method RedactPart(f: PiiFilter, part: Part, fullInput: string, rnd: Rand) returns (ok: bool, ghost log: seq<Entry>)
    requires f.Valid()
    modifies f.replacements, rnd, part
    ensures f.Valid() && f.Config() == old(f.Config()) && f.replacements == old(f.replacements)
    ensures ok ==> ToolRedacted(f.Config(), old(f.replacements.m), log, fullInput, f.replacements.m)
    ensures ok ==> VisitedOnce(log, old(part.text), part.text)
  {
    hide Logged, TableAfter, OneVisit;
    log := [];
    if part.text == "" {
      NothingLogged(f.Config(), f.replacements.m, fullInput);
      return true, [];
    }
    var t;
    ok, t, log := Apply(RedactWith(f, fullInput, rnd), part.text);
    if ok {
      part.text := t;
    }
  }

  /** Redacts the text of every request part; the text of all of them is what drawn words must avoid. */
  method BeforeModelCallback(f: PiiFilter, parts: seq<Part>, rnd: Rand)
    returns (ok: bool, fullInput: string, ghost log: seq<Entry>)
    requires f.Valid() && Distinct(parts)
    modifies f.replacements, rnd, parts
    ensures f.Valid() && f.Config() == old(f.Config()) && f.replacements == old(f.replacements)
    ensures fullInput == WithSpaces(old(Texts(parts)))
    ensures forall i :: 0 <= i < |parts| ==> Contains(fullInput, old(parts[i].text))
    ensures ok ==> ToolRedacted(f.Config(), old(f.replacements.m), log, fullInput, f.replacements.m)
    ensures ok ==> InTurn(log, old(Texts(parts)), Texts(parts))
  {
    hide Contains, VisitedOnce, InTurn, ToolRedacted, PiiFilter.Valid, PiiFilter.Config;
    fullInput := FullInputText(parts);
    ghost var m0, was, now: seq<string> := f.replacements.m, Texts(parts), [];
    log := [];
    NothingYet();
    NothingLogged(f.Config(), m0, fullInput);
    for n := 0 to |parts|
      invariant f.Valid() && f.Config() == old(f.Config()) && f.replacements == old(f.replacements)
      invariant ToolRedacted(f.Config(), m0, log, fullInput, f.replacements.m)
      invariant |now| == n && InTurn(log, was[..n], now)
      invariant forall i :: 0 <= i < n ==> parts[i].text == now[i]
      invariant forall i :: n <= i < |parts| ==> parts[i].text == was[i]
    {
      ghost var m1, more := f.replacements.m, [];
      ok, more := RedactPart(f, parts[n], fullInput, rnd);
      if !ok {
        return;
      }
      ToolRedactedConcat(f.Config(), m0, log, m1, more, f.replacements.m, fullInput);
      InTurnMore(log, was[..n], now, more, was[n], parts[n].text);
      assert was[..n + 1] == was[..n] + [was[n]];
      log, now := log + more, now + [parts[n].text];
    }
    assert was[..|parts|] == was && Texts(parts) == now;
    ok := true;
  }

  lemma NothingYet()
    ensures InTurn([], [], [])
  {
  }

  /** Restores the original values in the response parts. */
  method AfterModelCallback(f: PiiFilter, parts: seq<Part>)
    requires f.Valid() && Distinct(parts)
    modifies parts
    ensures f.Valid() && f.Config() == old(f.Config()) && f.replacements == old(f.replacements)
    ensures f.replacements.m == old(f.replacements.m)
    ensures forall i :: 0 <= i < |parts| ==>
              parts[i].text == Passes(f.replacements.m, Enabled(f.Config()), old(parts[i].text))
  {
    hide PiiFilter.Valid, PiiFilter.Config;
    for n := 0 to |parts|
      invariant f.Valid() && f.Config() == old(f.Config()) && f.replacements == old(f.replacements)
      invariant f.replacements.m == old(f.replacements.m)
      invariant forall i :: 0 <= i < n ==>
                  parts[i].text == Passes(f.replacements.m, Enabled(f.Config()), old(parts[i].text))
      invariant forall i :: n <= i < |parts| ==> parts[i].text == old(parts[i].text)
    {
      NothingPasses(f.replacements.m, Enabled(f.Config()));
      if parts[n].text != "" {
        var t := f.Unredact(parts[n].text);
        parts[n].text := t;
      }
    }
  }

  lemma {:induction false} NothingPasses(m: Entries, n: nat)
    ensures Passes(m, n, "") == ""
  {
    if n > 0 {
      NothingPasses(m, n - 1);
    }
  }

  /** What the model sees of a request, sent back as a response, is restored. */
  method RequestThenResponse(f: PiiFilter, parts: seq<Part>, rnd: Rand) returns (ok: bool, ghost log: seq<Entry>)
    requires f.Valid() && Distinct(parts)
    modifies f.replacements, rnd, parts
    ensures f.Valid() && f.replacements == old(f.replacements)
    ensures ok ==>
              var m0, m1 := old(f.replacements.m), f.replacements.m;
              forall i :: 0 <= i < |parts| && CanReturn(f.Config(), m0, log, m1, Str(old(parts[i].text))) ==>
                parts[i].text == old(parts[i].text)
  {
    hide Contains, Treated, InTurn, ToolRedacted, PiiFilter.Valid, PiiFilter.Config, CanReturn, Passes, Enabled;
    ghost var m0, was := f.replacements.m, Texts(parts);
    var fullInput;
    ok, fullInput, log := BeforeModelCallback(f, parts, rnd);
    if !ok {
      return;
    }
    ghost var sent := Texts(parts);
    AfterModelCallback(f, parts);
    forall i | 0 <= i < |parts| && CanReturn(f.Config(), m0, log, f.replacements.m, Str(old(parts[i].text)))
      ensures Passes(f.replacements.m, Enabled(f.Config()), sent[i]) == old(parts[i].text)
    {
      InTurnTreats(log, was, sent, i);
      TreatedRestored(f.Config(), m0, log, fullInput, f.replacements.m, old(parts[i].text), sent[i]);
    }
  }

  lemma TreatedRestored(f: Filters, m0: Entries, log: seq<Entry>, fullInput: string, m1: Entries,
                         was: string, now: string)
    requires ToolRedacted(f, m0, log, fullInput, m1) && Treated(log, was, now)
    requires Contains(fullInput, was) && CanReturn(f, m0, log, m1, Str(was))
    ensures Passes(m1, Enabled(f), now) == was
  {
    hide ToolRedacted, CanReturn, Contains;
    if was == "" {
      NothingPasses(m1, Enabled(f));
    } else {
      LogRoundTrip(f, m0, log, fullInput, m1, Str(was), Str(now));
    }
  }
}
