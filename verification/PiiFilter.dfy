/** piiplugin/plugin.go: the composite filter. */
module PiiFilter {
  import opened Text
  import opened Table
  import opened Unredaction
  import opened Replace
  import opened Pieces
  import opened NameGen
  import opened NameScan
  import opened EmailScan
  import opened UniqueNames
  import opened Email
  import opened PiiLaws
  import opened InputLaws

  /** The filters that are enabled; all of them hold the same table. */
  class PiiFilter {
    var usernameFilter: UniqueNamesFilter?
    var emailFilter: EmailFilter?
    var hostFilter: UniqueNamesFilter?
    var replacements: Replacements

    ghost predicate Valid()
      reads this, usernameFilter, emailFilter, hostFilter
    {
      && (usernameFilter != null ==> usernameFilter.replacements == replacements && usernameFilter.Valid())
      && (emailFilter != null ==> emailFilter.replacements == replacements && emailFilter.tldSuffix == map[])
      && (hostFilter != null ==> hostFilter.replacements == replacements && hostFilter.Valid())
    }

    /** The configuration as a value. */
    ghost function Config(): Filters
      reads this, usernameFilter, emailFilter, hostFilter
    {
      Filters(if usernameFilter == null then Off else Names(NamesOf(usernameFilter.regex)),
              if emailFilter == null then Off else Addresses(emailFilter.tldSuffix),
              if hostFilter == null then Off else Names(NamesOf(hostFilter.regex)))
    }

    /** A new table, and a filter over it for each kind that is not disabled. */
    constructor (noEMail: bool, noUserName: bool, noHost: bool, userNames: seq<string>, hostNames: seq<string>)
      ensures Valid() && replacements.m == map[]
      ensures Config().users.Off? == noUserName && Config().email.Off? == noEMail && Config().hosts.Off? == noHost
      ensures !noUserName ==> forall name :: name in Config().users.names <==> name in userNames
      ensures !noHost ==> forall name :: name in Config().hosts.names <==> name in hostNames
    {
      replacements := new Replacements();
      emailFilter := null;
      usernameFilter := null;
      hostFilter := null;
      new;
      if !noEMail {
        emailFilter := new EmailFilter(replacements, map[]);
      }
      if !noUserName {
        usernameFilter := new UniqueNamesFilter(replacements, userNames);
      }
      if !noHost {
        hostFilter := new UniqueNamesFilter(replacements, hostNames);
      }
    }

    /**
     Redacts text with the enabled filters in user name, mail address, host name order. Not ok when the
     draws run out.
     */
    method Redact(text: string, fullInput: string, rnd: Rand) returns (ok: bool, redacted: string, ghost run: Run)
      requires Valid()
      modifies replacements, rnd
      ensures CallsMade(old(replacements.m), run.All(), fullInput, replacements.m)
      ensures ok ==> Redaction(Config(), text, run) && redacted == run.Redacted()
    {
      hide CallsMade, Scans, EmailScans, LongestQuotedFirst;
      ghost var m0 := replacements.m;
      redacted := text;
      ok := true;
      ghost var users, email, hosts;
      ok, redacted, users := RedactNames(usernameFilter, replacements, redacted, fullInput, rnd);
      ghost var m1 := replacements.m;
      run := Run(users, [], []);
      AllOfParts(run);
      if !ok {
        return;
      }
      ok, redacted, email := RedactAddresses(emailFilter, replacements, redacted, fullInput, rnd);
      ghost var m2 := replacements.m;
      run := Run(users, email, []);
      AllOfParts(run);
      CallsMadeConcat(m0, users, m1, email, m2, fullInput);
      if !ok {
        return;
      }
      ok, redacted, hosts := RedactNames(hostFilter, replacements, redacted, fullInput, rnd);
      run := Run(users, email, hosts);
      CallsMadeConcat(m0, users + email, m2, hosts, replacements.m, fullInput);
    }

    /** Restores the original values in the reverse order. */
    method Unredact(text: string) returns (r: string)
      requires Valid()
      ensures r == Passes(replacements.m, Enabled(Config()), text)
    {
      r := text;
      ghost var m := replacements.m;
      ghost var n := 0;
      assert Passes(m, 0, text) == text;
      if hostFilter != null {
        LastPass(m, n, text);
        r := hostFilter.Unredact(r);
        n := n + 1;
      }
      if emailFilter != null {
        LastPass(m, n, text);
        r := emailFilter.Unredact(r);
        n := n + 1;
      }
      if usernameFilter != null {
        LastPass(m, n, text);
        r := usernameFilter.Unredact(r);
        n := n + 1;
      }
    }
  }

  lemma AllOfParts(run: Run)
    ensures run.email == [] && run.hosts == [] ==> run.All() == run.users
    ensures run.hosts == [] ==> run.All() == run.users + run.email
  {
  }

  /** A names filter, if there is one. */
  method RedactNames(filter: UniqueNamesFilter?, replacements: Replacements, text: string, fullInput: string, rnd: Rand)
    returns (ok: bool, redacted: string, ghost ps: seq<Piece>)
    requires filter != null ==> filter.replacements == replacements && filter.Valid()
    modifies replacements, rnd
    ensures CallsMade(old(replacements.m), ps, fullInput, replacements.m)
    ensures ok ==> redacted == Out(ps)
    ensures ok ==> Scanned(if filter == null then Off else Names(NamesOf(filter.regex)), text, ps)
  {
    if filter == null {
      ps := Lits(text);
      LitsTexts(text);
      NothingCalled(replacements.m, ps, fullInput);
      ok, redacted := true, text;
    } else {
      ok, redacted, ps := filter.Redact(text, fullInput, rnd);
    }
  }

  /** The address filter, if there is one. */
  method RedactAddresses(filter: EmailFilter?, replacements: Replacements, text: string, fullInput: string, rnd: Rand)
    returns (ok: bool, redacted: string, ghost ps: seq<Piece>)
    requires filter != null ==> filter.replacements == replacements
    modifies replacements, rnd
    ensures CallsMade(old(replacements.m), ps, fullInput, replacements.m)
    ensures ok ==> redacted == Out(ps)
    ensures ok ==> Scanned(if filter == null then Off else Addresses(filter.tldSuffix), text, ps)
  {
    if filter == null {
      ps := Lits(text);
      LitsTexts(text);
      NothingCalled(replacements.m, ps, fullInput);
      ok, redacted := true, text;
    } else {
      ok, redacted, ps := filter.Redact(text, fullInput, rnd);
    }
  }

  /**
   Redacting and unredacting a text with nothing in between gives the text back. The hypotheses are about
   the text and the run, or about the run and the final table.
   */
  method RedactThenUnredact(f: PiiFilter, text: string, fullInput: string, rnd: Rand)
    returns (ok: bool, restored: string, ghost run: Run)
    requires f.Valid()
    modifies f.replacements, rnd
    ensures CallsMade(old(f.replacements.m), run.All(), fullInput, f.replacements.m)
    ensures ok && GoodRun(f.Config(), old(f.replacements.m), text, fullInput, run) && NoKeyIn(f.replacements.m, text)
            ==> restored == text
    ensures ok && GoodInput(f.Config(), old(f.replacements.m), text, fullInput, run) && Contains(fullInput, text)
            && NoKeyIn(old(f.replacements.m), text) && AdaptedAvoid(old(f.replacements.m), run.All(), text)
            ==> restored == text
  {
    hide *;
    ghost var m0 := f.replacements.m;
    var redacted;
    restored := "";
    ok, redacted, run := f.Redact(text, fullInput, rnd);
    if !ok {
      return;
    }
    restored := f.Unredact(redacted);
    ghost var m1 := f.replacements.m;
    AllCallsMade(m0, run, fullInput, m1);
    if GoodRun(f.Config(), m0, text, fullInput, run) && NoKeyIn(m1, text) {
      RunKeepsTable(f.Config(), m0, text, fullInput, run);
      SelfExtends(m1);
      LayeredRoundTrip(f.Config(), m0, text, fullInput, run, m1);
    }
    if && GoodInput(f.Config(), m0, text, fullInput, run) && Contains(fullInput, text)
       && NoKeyIn(m0, text) && AdaptedAvoid(m0, run.All(), text)
    {
      InputRoundTrip(f.Config(), m0, text, fullInput, run);
    }
  }

  lemma AllCallsMade(m0: Entries, run: Run, fullInput: string, m: Entries)
    requires CallsMade(m0, run.All(), fullInput, m)
    ensures m == After(m0, run.All())
  {
  }
}
