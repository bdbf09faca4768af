/** filter/unique_names.go: the filter for a fixed list of names, over the shared table. */
module UniqueNames {
  import opened Table
  import opened Unredaction
  import opened Sorting
  import opened Replace
  import opened Pieces
  import opened NameScan
  import opened NameLaws
  import opened NameGen

  /** The compiled expression: escaped alternatives in the order in which they are tried. */
  datatype Regex = NoRegex | Alternatives(escaped: seq<string>)

  /** The names that the alternatives match. */
  function Literals(escaped: seq<string>): (names: seq<string>)
    ensures |names| == |escaped| && forall i :: 0 <= i < |names| ==> names[i] == Unquote(escaped[i])
  {
    seq(|escaped|, i requires 0 <= i < |escaped| => Unquote(escaped[i]))
  }

  function NamesOf(regex: Regex): seq<string>
  {
    match regex
    case NoRegex => []
    case Alternatives(escaped) => Literals(escaped)
  }

  /** What has been scanned, followed by a scan of the rest, is a scan of the whole text. */
  ghost predicate ScannedTo(names: seq<string>, text: string, i: nat, done: seq<Piece>)
    requires i <= |text|
  {
    forall rest :: Scans(names, text, i, rest) ==> Scans(names, text, 0, done + rest)
  }

  lemma ScanStarts(names: seq<string>, text: string)
    ensures ScannedTo(names, text, 0, [])
  {
    forall rest | Scans(names, text, 0, rest)
      ensures Scans(names, text, 0, [] + rest)
    {
      assert [] + rest == rest;
    }
  }

  lemma ScanGoesOn(names: seq<string>, text: string, i: nat, done: seq<Piece>, p: Piece)
    requires i < |text| && ScannedTo(names, text, i, done)
    requires var n := LongestFit(names, text, i);
             if n > 0 then p.Hit? && p.orig == text[i..i + n] else p == Lit(text[i])
    ensures ScannedTo(names, text, i + Step(names, text, i), done + [p])
  {
    hide LongestFit;
    var k := Step(names, text, i);
    forall rest | Scans(names, text, i + k, rest)
      ensures Scans(names, text, 0, done + [p] + rest)
    {
      assert ([p] + rest)[1..] == rest;
      assert Scans(names, text, i, [p] + rest);
      assert done + ([p] + rest) == done + [p] + rest;
    }
  }

  lemma ScanEnds(names: seq<string>, text: string, done: seq<Piece>)
    requires ScannedTo(names, text, |text|, done)
    ensures Scans(names, text, 0, done)
  {
    assert Scans(names, text, |text|, []);
    assert done + [] == done;
  }

  class UniqueNamesFilter {
    var replacements: Replacements
    var regex: Regex

    ghost predicate Valid()
      reads this
    {
      LongestQuotedFirst(NamesOf(regex))
    }

    constructor (replacements: Replacements, names: seq<string>)
      ensures Valid() && this.replacements == replacements
      ensures forall name :: name in NamesOf(regex) <==> name in names
    {
      this.replacements := replacements;
      regex := NoRegex;
      new;
      InitRegex(names);
    }

    /** Sorts the names by the length of their escaped form. */
    method InitRegex(names: seq<string>)
      modifies this`regex
      ensures Valid()
      ensures forall name :: name in NamesOf(regex) <==> name in names
    {
      if |names| == 0 {
        regex := NoRegex;
        return;
      }
      var escaped: seq<string> := [];
      for i := 0 to |names|
        invariant |escaped| == i
        invariant forall k :: 0 <= k < i ==> escaped[k] == QuoteMeta(names[k])
      {
        escaped := escaped + [QuoteMeta(names[i])];
      }
      var sorted := SortByLength(escaped);
      SameMembers(sorted, escaped);
      regex := Alternatives(sorted);
      SortedNames(names, escaped, sorted);
    }

    /**
     Replaces the names in text. Not ok when the draws run out; the pieces then record the calls made
     so far.
     */
    method Redact(text: string, fullInput: string, rnd: Rand) returns (ok: bool, redacted: string, ghost ps: seq<Piece>)
      requires Valid()
      modifies replacements, rnd
      ensures ok ==> Scans(NamesOf(regex), text, 0, ps) && redacted == Out(ps)
      ensures Plain(ps) && Calls(old(replacements.m), ps, fullInput)
      ensures replacements.m == After(old(replacements.m), ps)
      ensures ok && WordEnds(NamesOf(regex)) && Unlisted(NamesOf(regex), ps) ==> NowhereAlone(NamesOf(regex), redacted)
    {
      hide Unlisted, NowhereAlone, WordEnds;
      if regex.NoRegex? {
        ps := Lits(text);
        LitsTexts(text);
        LitsScan(text, 0);
        LitsCallNothing(replacements.m, ps, fullInput);
        assert text[0..] == text;
        ok, redacted := true, text;
      } else {
        ok, redacted, ps := ReplaceNames(NamesOf(regex), replacements, text, fullInput, rnd);
      }
      if ok && WordEnds(NamesOf(regex)) && Unlisted(NamesOf(regex), ps) {
        NoNameIsLeft(NamesOf(regex), text, ps);
      }
    }

    method Unredact(text: string) returns (r: string)
      ensures r == Unredacted(replacements.m, text)
    {
      r := UnredactText(replacements, text);
    }
  }

  /**
   The regular expression engine, for whole names: the search goes on behind every match, and the
   replacement of a match is what GetReplacement returns for it.
   */
  method ReplaceNames(names: seq<string>, replacements: Replacements, text: string, fullInput: string, rnd: Rand)
    returns (ok: bool, redacted: string, ghost ps: seq<Piece>)
    requires LongestQuotedFirst(names)
    modifies replacements, rnd
    ensures ok ==> Scans(names, text, 0, ps) && redacted == Out(ps)
    ensures Plain(ps) && Calls(old(replacements.m), ps, fullInput)
    ensures replacements.m == After(old(replacements.m), ps)
  {
    hide LongestQuotedFirst, LongestFit, FirstFit, FitsAt, ScannedTo, MayReturn, Scans, NeedsDraw;
    ps := [];
    redacted := "";
    ghost var m0 := replacements.m;
    var i := 0;
    ScanStarts(names, text);
    while i < |text|
      invariant i <= |text|
      invariant ScannedTo(names, text, i, ps) && redacted == Out(ps) && Plain(ps)
      invariant Calls(m0, ps, fullInput) && replacements.m == After(m0, ps)
    {
      OrderFindsLongest(names, names, text, i);
      var n := FirstFit(names, text, i);
      ghost var p;
      var rep;
      if n > 0 {
        var found := text[i..i + n];
        ok, rep := GetReplacement(replacements, found, fullInput, rnd);
        if !ok {
          return;
        }
        p := Hit(found, rep);
      } else {
        rep := [text[i]];
        p := Lit(text[i]);
      }
      AppendPiece(m0, ps, p, fullInput);
      ScanGoesOn(names, text, i, ps, p);
      redacted := redacted + rep;
      ps := ps + [p];
      i := i + if n > 0 then n else 1;
    }
    ScanEnds(names, text, ps);
    ok := true;
  }

  lemma SortedNames(names: seq<string>, escaped: seq<string>, sorted: seq<string>)
    requires |escaped| == |names| && forall k :: 0 <= k < |names| ==> escaped[k] == QuoteMeta(names[k])
    requires LongestFirst(sorted) && forall e :: e in sorted <==> e in escaped
    ensures LongestQuotedFirst(Literals(sorted))
    ensures forall name :: name in Literals(sorted) <==> name in names
  {
    var order := Literals(sorted);
    forall i | 0 <= i < |sorted|
      ensures QuoteMeta(order[i]) == sorted[i] && order[i] in names
    {
      assert sorted[i] in escaped;
      var k :| 0 <= k < |escaped| && escaped[k] == sorted[i];
      UnquoteQuoteMeta(names[k]);
    }
    forall name | name in names
      ensures name in order
    {
      var k :| 0 <= k < |names| && names[k] == name;
      assert escaped[k] in sorted;
      var i :| 0 <= i < |sorted| && sorted[i] == escaped[k];
      UnquoteQuoteMeta(name);
      assert order[i] == name;
    }
  }

  lemma {:induction false} LitsScan(text: string, i: nat)
    requires i <= |text|
    ensures Scans([], text, i, Lits(text[i..]))
    decreases |text| - i
  {
    if i < |text| {
      LitsScan(text, i + 1);
      assert Lits(text[i..])[1..] == Lits(text[i + 1..]);
    }
  }

  lemma {:induction false} LitsCallNothing(m: Entries, ps: seq<Piece>, fullInput: string)
    requires forall i :: 0 <= i < |ps| ==> ps[i].Lit?
    ensures Plain(ps) && Calls(m, ps, fullInput) && SeparatedCalls(m, ps) && After(m, ps) == m
  {
    if ps != [] {
      LitsCallNothing(m, ps[1..], fullInput);
    }
  }

  lemma AppendPiece(m: Entries, ps: seq<Piece>, p: Piece, fullInput: string)
    requires Calls(m, ps, fullInput)
    requires Asks(p) ==> MayReturn(After(m, ps), Asked(p), fullInput, p.rep)
    ensures Calls(m, ps + [p], fullInput)
    ensures After(m, ps + [p]) == Put(After(m, ps), p)
    ensures Out(ps + [p]) == Out(ps) + OutOf(p) && Source(ps + [p]) == Source(ps) + SourceOf(p)
  {
    hide MayReturn;
    var one := [p];
    CallsConcat(m, ps, one, fullInput);
    TextsConcat(ps, one);
    assert one[1..] == [];
    assert Calls(Put(After(m, ps), p), one[1..], fullInput);
    OneText(p);
  }
}
