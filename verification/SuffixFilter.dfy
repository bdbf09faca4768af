/** filter/email/email.go: the filter for mail addresses with suffixes, by itself and behind filters for names. */
module SuffixFilter {
  import opened Table
  import opened Unredaction
  import opened Pieces
  import opened NameGen
  import opened NameScan
  import opened EmailScan
  import opened EmailLaws
  import opened SuffixLaws
  import opened SuffixLayers
  import opened PiiLaws
  import opened UniqueNames
  import opened Email

  /**
   Redacting and unredacting with any map of suffixes gives the text back exactly if no label appeared
   with two top-level domains behind one suffix.
   */
  method RedactThenUnredact(f: EmailFilter, text: string, fullInput: string, rnd: Rand)
    returns (ok: bool, restored: string, ghost ps: seq<Piece>)
    requires Spaced(text, 0, false)
    requires Stable(f.replacements.m) && OneKeyEach(f.replacements.m) && LetterKeys(f.replacements.m)
    modifies f.replacements, rnd
    ensures CallsMade(old(f.replacements.m), ps, fullInput, f.replacements.m)
    ensures ok ==> EmailScans(f.tldSuffix, text, 0, ps)
    ensures ok && SeparatedCalls(old(f.replacements.m), ps) && Clear(ps, ps) && NoKeyIn(f.replacements.m, text)
            ==> (restored == text <==> OneDomainEach(ps))
  {
    hide *;
    var redacted;
    restored := "";
    ghost var m0 := f.replacements.m;
    ok, redacted, ps := f.Redact(text, fullInput, rnd);
    if !ok {
      return;
    }
    restored := f.Unredact(redacted);
    CallsOfRun(m0, ps, fullInput, f.replacements.m);
    if SeparatedCalls(m0, ps) && Clear(ps, ps) && NoKeyIn(f.replacements.m, text) {
      SuffixRoundTripIff(f.tldSuffix, m0, text, fullInput, ps);
    }
  }

  lemma CallsOfRun(m0: Entries, ps: seq<Piece>, fullInput: string, m: Entries)
    requires CallsMade(m0, ps, fullInput, m)
    ensures Calls(m0, ps, fullInput) && m == After(m0, ps)
  {
  }

  /** What the model callbacks of the three filters take for the whole input, for a request of one part. */
  function InputsInTurn(text: string, chain: Chain): seq<string>
  {
    [text + " ", Out(chain.users) + " ", Out(chain.hosts) + " "]
  }

  /** The calls of the three filters, and the table they leave. */
  ghost predicate ChainMade(m0: Entries, text: string, chain: Chain, m: Entries)
  {
    ChainCalls(m0, chain, InputsInTurn(text, chain)) && m == After(m0, chain.All())
  }

  ghost function ConfigInTurn(users: UniqueNamesFilter, hosts: UniqueNamesFilter, mail: EmailFilter): Plugins
    reads users, hosts, mail
  {
    Plugins(Names(NamesOf(users.regex)), Names(NamesOf(hosts.regex)), mail.tldSuffix)
  }

  /**
   Three filters created one by one: every callback checks words against the request as it is by then, and
   every one makes one pass over the response.
   */
  method RedactThenUnredactInTurn(users: UniqueNamesFilter, hosts: UniqueNamesFilter, mail: EmailFilter, text: string,
                                  rnd: Rand)
    returns (ok: bool, restored: string, ghost chain: Chain)
    requires users.Valid() && hosts.Valid()
    requires users.replacements == hosts.replacements == mail.replacements
    modifies mail.replacements, rnd
    ensures ok ==> ChainMade(old(mail.replacements.m), text, chain, mail.replacements.m)
    ensures ok ==> ScannedInTurn(ConfigInTurn(users, hosts, mail), text, chain)
    ensures ok && Stable(old(mail.replacements.m)) && OneKeyEach(old(mail.replacements.m))
            && LetterKeys(old(mail.replacements.m)) && SeparatedCalls(old(mail.replacements.m), chain.All())
            && ChainScanned(ConfigInTurn(users, hosts, mail), text, chain)
            && Fresh(mail.tldSuffix, text, chain.All()) && OneDomainEach(chain.email)
            && NoKeyIn(mail.replacements.m, text)
            ==> restored == text
  {
    hide *;
    ghost var m0 := mail.replacements.m;
    ghost var us, hs, ps;
    var redacted;
    restored, chain := "", Chain([], [], []);
    ok, redacted, us := users.Redact(text, text + " ", rnd);
    if !ok {
      return;
    }
    ghost var m1 := mail.replacements.m;
    ok, redacted, hs := hosts.Redact(redacted, redacted + " ", rnd);
    if !ok {
      return;
    }
    ghost var m2 := mail.replacements.m;
    ok, redacted, ps := mail.Redact(redacted, redacted + " ", rnd);
    if !ok {
      return;
    }
    chain := Chain(us, hs, ps);
    ghost var m := mail.replacements.m;
    CallsOfRun(m2, ps, Out(hs) + " ", m);
    InTurn(m0, text, chain, m);
    AllScanned(users, hosts, mail, text, chain);
    restored := users.Unredact(redacted);
    restored := hosts.Unredact(restored);
    restored := mail.Unredact(restored);
    ThreePasses(m, redacted);
    ghost var f := ConfigInTurn(users, hosts, mail);
    if && Stable(m0) && OneKeyEach(m0) && LetterKeys(m0) && SeparatedCalls(m0, chain.All())
       && ChainScanned(f, text, chain) && Fresh(mail.tldSuffix, text, chain.All()) && OneDomainEach(chain.email)
       && NoKeyIn(m, text)
    {
      ChainOfThree(m0, text, chain, m);
      AllThree(users, hosts, mail);
      ChainRoundTrip(f, m0, text, chain, InputsInTurn(text, chain));
    }
  }

  lemma InTurn(m0: Entries, text: string, chain: Chain, m: Entries)
    requires Calls(m0, chain.users, text + " ")
    requires Calls(After(m0, chain.users), chain.hosts, Out(chain.users) + " ")
    requires Calls(After(After(m0, chain.users), chain.hosts), chain.email, Out(chain.hosts) + " ")
    requires m == After(After(After(m0, chain.users), chain.hosts), chain.email)
    ensures ChainMade(m0, text, chain, m)
  {
    hide Calls, After, Out;
    CallsConcat(m0, chain.users + chain.hosts, chain.email, "");
    CallsConcat(m0, chain.users, chain.hosts, "");
  }

  lemma AllScanned(users: UniqueNamesFilter, hosts: UniqueNamesFilter, mail: EmailFilter, text: string, chain: Chain)
    requires Scans(NamesOf(users.regex), text, 0, chain.users)
    requires Scans(NamesOf(hosts.regex), Out(chain.users), 0, chain.hosts)
    requires EmailScans(mail.tldSuffix, Out(chain.hosts), 0, chain.email)
    ensures ScannedInTurn(ConfigInTurn(users, hosts, mail), text, chain)
  {
  }

  lemma ChainOfThree(m0: Entries, text: string, chain: Chain, m: Entries)
    requires ChainMade(m0, text, chain, m)
    ensures ChainCalls(m0, chain, InputsInTurn(text, chain)) && m == After(m0, chain.All())
  {
  }

  lemma ThreePasses(m: Entries, text: string)
    ensures Passes(m, 3, text) == Unredacted(m, Unredacted(m, Unredacted(m, text)))
  {
    LastPass(m, 2, text);
    LastPass(m, 1, text);
    LastPass(m, 0, text);
  }

  lemma AllThree(users: UniqueNamesFilter, hosts: UniqueNamesFilter, mail: EmailFilter)
    ensures var f := ConfigInTurn(users, hosts, mail);
            f.Below() + 1 == 3 && f.suffixes == mail.tldSuffix
  {
  }
}
