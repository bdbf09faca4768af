/**
 README.md, the filters created one by one over a shared table: names first, mail addresses with suffixes
 last, each with an input of its own. One pass for each of them restores the text.
 */
module SuffixLayers {
  import opened Table
  import opened Unredaction
  import opened Pieces
  import opened EmailScan
  import opened EmailLaws
  import opened SuffixLaws
  import opened SuffixPasses
  import opened PiiLaws
  import opened NameScan
  import opened Spacing
  import opened InputLaws

  /** Three filters over one table: for user names, for host names, and for addresses with these suffixes. */
  datatype Plugins = Plugins(users: Layer, hosts: Layer, suffixes: Suffixes)
  {
    function Below(): nat { Count(users) + Count(hosts) }
  }

  /** What they did, one after another. */
  datatype Chain = Chain(users: seq<Piece>, hosts: seq<Piece>, email: seq<Piece>)
  {
    function All(): seq<Piece> { users + hosts + email }
  }

  predicate NamesOnly(layer: Layer) { ValidLayer(layer) && !layer.Addresses? }

  /** Every filter works on what the one before it made. */
  ghost predicate ScannedInTurn(f: Plugins, text: string, chain: Chain)
  {
    && Scanned(f.users, text, chain.users)
    && Scanned(f.hosts, Out(chain.users), chain.hosts)
    && EmailScans(f.suffixes, Out(chain.hosts), 0, chain.email)
  }

  /** Names filters, and well spaced addresses in what the last filter is given. */
  ghost predicate ChainScanned(f: Plugins, text: string, chain: Chain)
  {
    NamesOnly(f.users) && NamesOnly(f.hosts) && ScannedInTurn(f, text, chain) && Spaced(Out(chain.hosts), 0, false)
  }

  /** Every filter checks the words it draws against an input of its own. */
  ghost predicate ChainCalls(m: Entries, chain: Chain, inputs: seq<string>)
  {
    && |inputs| == 3
    && Calls(m, chain.users, inputs[0])
    && Calls(After(m, chain.users), chain.hosts, inputs[1])
    && Calls(After(After(m, chain.users), chain.hosts), chain.email, inputs[2])
  }

  lemma LayerSpacing(layer: Layer, m: Entries, text: string, fullInput: string, ps: seq<Piece>)
    requires NamesOnly(layer) && Scanned(layer, text, ps) && (layer.Names? ==> AlnumNames(layer.names))
    requires Stable(m) && LetterKeys(m) && Calls(m, ps, fullInput) && SeparatedCalls(m, ps)
    ensures Spaced(text, 0, false) <==> Spaced(Out(ps), 0, false)
    ensures Stable(After(m, ps)) && LetterKeys(After(m, ps))
  {
    hide Scans, EmailScans, WordEnds, AlnumNames, Stable, LetterKeys, Calls, SeparatedCalls, Spaced, Out, Plain;
    NamesAreSpaced(layer, text);
    LayerIsTidy(layer, text, ps);
    CallsKeepStable(m, ps, fullInput);
    if layer.Names? {
      NamesKeepSpacing(layer.names, m, text, fullInput, ps);
    } else {
      LitsTexts(text);
    }
  }

  /** For names of letters and digits it is enough that the addresses of the text are well spaced. */
  lemma ChainKeepsSpacing(f: Plugins, m: Entries, text: string, chain: Chain, inputs: seq<string>)
    requires NamesOnly(f.users) && (f.users.Names? ==> AlnumNames(f.users.names))
    requires NamesOnly(f.hosts) && (f.hosts.Names? ==> AlnumNames(f.hosts.names))
    requires Stable(m) && LetterKeys(m) && ScannedInTurn(f, text, chain)
    requires ChainCalls(m, chain, inputs) && SeparatedCalls(m, chain.All())
    ensures Spaced(text, 0, false) <==> Spaced(Out(chain.hosts), 0, false)
  {
    hide Scanned, EmailScans, NamesOnly, AlnumNames, Stable, LetterKeys, Calls, SeparatedCalls, Spaced, After, Out;
    var a, b, c := chain.users, chain.hosts, chain.email;
    CallsConcat(m, a + b, c, "");
    CallsConcat(m, a, b, "");
    LayerSpacing(f.users, m, text, inputs[0], a);
    LayerSpacing(f.hosts, After(m, a), Out(a), inputs[1], b);
  }

  /** The suffixes consist of letters, none occurs behind a dot in the text, and no replacement begins with one. */
  ghost predicate Fresh(suffixes: Suffixes, text: string, ps: seq<Piece>)
  {
    AlphaSuffixes(suffixes.Values) && SuffixFree(suffixes.Values, text) && NoneBegin(suffixes.Values, ps)
  }

  /** Every piece is one of all that were made on the table. */
  predicate Among(all: seq<Piece>, ps: seq<Piece>)
  {
    forall i :: 0 <= i < |ps| ==> ps[i] in all
  }

  lemma AmongParts(all: seq<Piece>, chain: Chain)
    requires Among(all, chain.All())
    ensures Among(all, chain.users) && Among(all, chain.hosts) && Among(all, chain.email)
  {
    var a, b, c := chain.users, chain.hosts, chain.email;
    assert forall i :: 0 <= i < |a| ==> a[i] == chain.All()[i];
    assert forall i :: 0 <= i < |b| ==> b[i] == chain.All()[|a| + i];
    assert forall i :: 0 <= i < |c| ==> c[i] == chain.All()[|a| + |b| + i];
  }

  lemma PartsBegin(ss: set<string>, chain: Chain)
    requires NoneBegin(ss, chain.All())
    ensures NoneBegin(ss, chain.users) && NoneBegin(ss, chain.hosts) && NoneBegin(ss, chain.email)
  {
    AmongParts(chain.All(), chain);
    BeginAmong(ss, chain.All(), chain.users);
    BeginAmong(ss, chain.All(), chain.hosts);
    BeginAmong(ss, chain.All(), chain.email);
  }

  lemma BeginAmong(ss: set<string>, all: seq<Piece>, ps: seq<Piece>)
    requires NoneBegin(ss, all) && Among(all, ps)
    ensures NoneBegin(ss, ps)
  {
    forall s | s in ss
      ensures NoneBegins(s, ps)
    {
      assert NoneBegins(s, all);
    }
  }

  lemma AmongInLedger(m: Entries, all: seq<Piece>, ps: seq<Piece>)
    requires Ledger(m, all) && OneDomainEach(all) && Among(all, ps)
    ensures LabelsIn(m, ps) && OwnEntries(m, ps)
  {
    OwnIffOneDomain(m, all);
    LedgerHasLabels(m, all);
    hide Ledger, OneDomainEach, LabelIn, OwnEntry;
  }

  lemma LabelsAreEntries(m: Entries, ps: seq<Piece>)
    requires LabelsIn(m, ps) && Plain(ps)
    ensures EntriesIn(LabelPart(m), ps)
  {
    hide IsLabelKey;
    forall i | 0 <= i < |ps|
      ensures EntryIn(LabelPart(m), ps[i])
    {
      assert LabelIn(m, ps[i]);
    }
  }

  /** A filter for names below the others. */
  lemma NamesBelow(layer: Layer, below: string, ps: seq<Piece>, m: Entries, all: seq<Piece>, ss: set<string>,
                   k: nat, text: string)
    requires NamesOnly(layer) && Scanned(layer, below, ps)
    requires Ledger(m, all) && OneDomainEach(all) && Among(all, ps) && AlphaSuffixes(ss) && NoneBegin(ss, ps)
    requires NoKeyIn(m, text) && Passes(LabelPart(m), k, below) == text && StaysFree(ss, LabelPart(m), below)
    ensures Passes(LabelPart(m), k + Count(layer), Out(ps)) == text && StaysFree(ss, LabelPart(m), Out(ps))
  {
    NamesAreSpaced(layer, below);
    hide *;
    var l := LabelPart(m);
    FewerKeys(m, text);
    LayerIsTidy(layer, below, ps);
    AmongInLedger(m, all, ps);
    LabelsAreEntries(m, ps);
    LayerIsUndone(layer, below, ps, l, k, text);
    LayerStaysFree(ss, l, ps);
  }

  lemma NamesAreSpaced(layer: Layer, text: string)
    requires NamesOnly(layer)
    ensures ValidLayer(layer) && WellSpaced(layer, text)
  {
  }

  /** The filter for addresses on top of them. */
  lemma AddressesOnTop(suffixes: Suffixes, below: string, ps: seq<Piece>, m: Entries, all: seq<Piece>,
                       k: nat, text: string)
    requires EmailScans(suffixes, below, 0, ps) && Spaced(below, 0, false)
    requires Ledger(m, all) && OneDomainEach(all) && Among(all, ps) && Written(suffixes.Values, all)
    requires AlphaSuffixes(suffixes.Values) && NoneBegin(suffixes.Values, ps)
    requires NoKeyIn(m, text) && Passes(LabelPart(m), k, below) == text
    requires StaysFree(suffixes.Values, LabelPart(m), below)
    ensures Passes(m, k + 1, Out(ps)) == text
  {
    hide *;
    var ss := suffixes.Values;
    assert below[0..] == below;
    ScanIsTidy(suffixes, below, 0, false, ps);
    TidyFirst(suffixes, below, 0, ps);
    TidySuffixes(suffixes, ps);
    LedgerHasTwoKinds(m, all);
    AmongInLedger(m, all, ps);
    NextStaysFree(ss, LabelPart(m), below);
    DotsAreClear(ss, ps);
    DotsClearIsClear(all, ss, ps);
    SuffixesPeelOff(m, all, ss, k, ps);
  }

  /**
   The layers are undone on every table that knows them: used before, or since, by the same filters with
   inputs of their own, as long as no label had two top-level domains behind one suffix in all that time.
   */
  lemma ChainIsUndone(f: Plugins, later: Entries, all: seq<Piece>, text: string, chain: Chain)
    requires Ledger(later, all) && OneDomainEach(all) && Among(all, chain.All()) && Written(f.suffixes.Values, all)
    requires ChainScanned(f, text, chain) && Fresh(f.suffixes, text, chain.All()) && NoKeyIn(later, text)
    ensures Passes(later, f.Below() + 1, Out(chain.email)) == text
  {
    hide Ledger, OneDomainEach, Written, Scanned, EmailScans, Spaced, AlphaSuffixes, SuffixFree, NoneBegin, NoKeyIn,
      StaysFree, Out, LetterKeys, NamesOnly;
    var ss, l := f.suffixes.Values, LabelPart(later);
    PartsBegin(ss, chain);
    AmongParts(all, chain);
    FewerKeys(later, text);
    KeptStaysFree(ss, l, text);
    assert Passes(l, 0, text) == text;
    NamesBelow(f.users, text, chain.users, later, all, ss, 0, text);
    NamesBelow(f.hosts, Out(chain.users), chain.hosts, later, all, ss, Count(f.users), text);
    AddressesOnTop(f.suffixes, Out(chain.hosts), chain.email, later, all, f.Below(), text);
  }

  /** The ledger of the three filters. */
  lemma ChainLedger(m: Entries, chain: Chain, inputs: seq<string>)
    requires Stable(m) && OneKeyEach(m) && LetterKeys(m)
    requires ChainCalls(m, chain, inputs) && SeparatedCalls(m, chain.All())
    ensures Ledger(After(m, chain.All()), chain.All())
  {
    hide Stable, OneKeyEach, LetterKeys, Calls, SeparatedCalls, After, Ledger;
    var a, b, c := chain.users, chain.hosts, chain.email;
    CallsConcat(m, a + b, c, "");
    CallsConcat(m, a, b, "");
    LedgerStarts(m);
    LedgerKept(m, [], a, inputs[0]);
    assert [] + a == a;
    LedgerKept(After(m, a), a, b, inputs[1]);
    LedgerKept(After(After(m, a), b), a + b, c, inputs[2]);
  }

  lemma SuffixInMap(suffixes: Suffixes, tld: string, suffix: string)
    requires SuffixFor(suffixes, tld) == Replace(suffix)
    ensures suffix in suffixes.Values
  {
  }

  lemma TidyIsWritten(suffixes: Suffixes, ps: seq<Piece>)
    requires Tidy(suffixes, ps)
    ensures Written(suffixes.Values, ps)
  {
    forall i | 0 <= i < |ps| && ps[i].Combo?
      ensures ps[i].suffix in suffixes.Values
    {
      assert InPlace(suffixes, ps, i);
      SuffixInMap(suffixes, ps[i].tld, ps[i].suffix);
    }
  }

  /** Only the filter for addresses writes suffixes. */
  lemma OnlyAddressesWrite(ss: set<string>, a: seq<Piece>, b: seq<Piece>, c: seq<Piece>)
    requires Plain(a) && Plain(b) && Written(ss, c) && OneDomainEach(c)
    ensures Written(ss, a + b + c) && OneDomainEach(a + b + c) && Among(a + b + c, a + b + c)
  {
    var all, front := a + b + c, a + b;
    assert forall i :: 0 <= i < |front| ==> all[i] == front[i];
    forall i | 0 <= i < |all| && all[i].Combo?
      ensures i >= |front| && all[i] == c[i - |front|]
    {
    }
  }

  /**
   Filters for user names, host names and addresses with suffixes, created one by one over a shared table
   and used in this order: one pass for each restores the text, if no label appears with two top-level
   domains behind one suffix.
   */
  lemma ChainRoundTrip(f: Plugins, m: Entries, text: string, chain: Chain, inputs: seq<string>)
    requires Stable(m) && OneKeyEach(m) && LetterKeys(m)
    requires ChainScanned(f, text, chain) && ChainCalls(m, chain, inputs) && SeparatedCalls(m, chain.All())
    requires Fresh(f.suffixes, text, chain.All()) && OneDomainEach(chain.email)
    requires NoKeyIn(After(m, chain.All()), text)
    ensures Passes(After(m, chain.All()), f.Below() + 1, Out(chain.email)) == text
  {
    ChainOfPieces(f, text, chain);
    hide *;
    ChainLedger(m, chain, inputs);
    ChainIsUndone(f, After(m, chain.All()), chain.All(), text, chain);
  }

  lemma ChainOfPieces(f: Plugins, text: string, chain: Chain)
    requires ChainScanned(f, text, chain) && OneDomainEach(chain.email)
    ensures Written(f.suffixes.Values, chain.All()) && OneDomainEach(chain.All()) && Among(chain.All(), chain.All())
  {
    hide Written, OneDomainEach, Scanned, EmailScans, Spaced, Out, Tidy, Plain;
    LayerIsTidy(f.users, text, chain.users);
    LayerIsTidy(f.hosts, Out(chain.users), chain.hosts);
    ScanHasSuffixes(f.suffixes, Out(chain.hosts), chain.email);
    TidyIsWritten(f.suffixes, chain.email);
    OnlyAddressesWrite(f.suffixes.Values, chain.users, chain.hosts, chain.email);
  }
}
