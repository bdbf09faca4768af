/**
 filter/replace.go, UnredactText: what a single leftmost-longest pass over a text restores, and that
 it does not depend on the order in which the table is listed.
 */
module Unredaction {
  import opened Text
  import opened Table

  /** Length of the longest key, of at most n characters, that the text begins with; 0 if none does. */
  function LongestKey(m: Entries, text: string, n: nat): (r: nat)
    requires n <= |text|
    ensures r <= n && (r > 0 ==> text[..r] in m)
    ensures forall k :: r < k <= n ==> text[..k] !in m
  {
    if n == 0 then 0
    else if text[..n] in m then n
    else LongestKey(m, text, n - 1)
  }

  lemma LongestKeyIs(m: Entries, text: string, r: nat)
    requires r <= |text| && (r > 0 ==> text[..r] in m)
    requires forall k :: r < k <= |text| ==> text[..k] !in m
    ensures LongestKey(m, text, |text|) == r
  {
  }

  /** Every key occurrence replaced by its original, leftmost first, longest first, never rescanned. */
  function Unredacted(m: Entries, text: string): string
  {
    if text == "" then ""
    else
      var n := LongestKey(m, text, |text|);
      if n > 0 then m[text[..n]] + Unredacted(m, text[n..])
      else [text[0]] + Unredacted(m, text[1..])
  }

  lemma EmptyText(m: Entries)
    ensures Unredacted(m, "") == ""
  {
  }

  /** The first thing a pass does: how much of the text it takes, and what it puts there. */
  function Head(m: Entries, text: string): (n: nat)
    requires text != ""
    ensures 1 <= n <= |text|
  {
    var n := LongestKey(m, text, |text|);
    if n > 0 then n else 1
  }

  function HeadRestored(m: Entries, text: string): string
    requires text != ""
  {
    var n := LongestKey(m, text, |text|);
    if n > 0 then m[text[..n]] else [text[0]]
  }

  lemma UnredactedHead(m: Entries, text: string)
    requires text != ""
    ensures Unredacted(m, text) == HeadRestored(m, text) + Unredacted(m, text[Head(m, text)..])
  {
  }

  /** n passes one after another. */
  function Passes(m: Entries, n: nat, text: string): string
    decreases n
  {
    if n == 0 then text else Passes(m, n - 1, Unredacted(m, text))
  }

  /** The keys that can match at all, in some order. */
  ghost predicate Lists(keys: seq<string>, m: Entries)
  {
    forall key :: key in keys <==> key in m && key != ""
  }

  predicate LongestFirst(keys: seq<string>)
  {
    forall i, j :: 0 <= i < j < |keys| ==> |keys[i]| >= |keys[j]|
  }

  /** Length of the first alternative that the text begins with; 0 if none does. */
  function FirstAlternative(keys: seq<string>, text: string): nat
  {
    if keys == [] then 0
    else if keys[0] <= text then |keys[0]|
    else FirstAlternative(keys[1..], text)
  }

  lemma {:induction false} FirstAlternativeIsLongest(keys: seq<string>, text: string)
    requires LongestFirst(keys) && "" !in keys
    ensures var n := FirstAlternative(keys, text);
            && n <= |text|
            && (n > 0 ==> text[..n] in keys)
            && (forall k :: n < k <= |text| ==> text[..k] !in keys)
  {
    if keys != [] {
      assert keys == [keys[0]] + keys[1..];
      if keys[0] <= text {
        assert text[..|keys[0]|] == keys[0];
        forall k | |keys[0]| < k <= |text|
          ensures text[..k] !in keys
        {
        }
      } else {
        FirstAlternativeIsLongest(keys[1..], text);
        forall k | 0 < k <= |text|
          ensures text[..k] in keys <==> text[..k] in keys[1..]
        {
        }
      }
    }
  }

  /** However the keys are listed and sorted by length, the alternation finds the longest key. */
  lemma OrderDoesNotMatter(keys: seq<string>, m: Entries, text: string)
    requires Lists(keys, m) && LongestFirst(keys)
    ensures FirstAlternative(keys, text) == LongestKey(m, text, |text|)
  {
    FirstAlternativeIsLongest(keys, text);
    var n := FirstAlternative(keys, text);
    forall k | n < k <= |text|
      ensures text[..k] !in m
    {
      assert text[..k] !in keys && text[..k] != "";
    }
    LongestKeyIs(m, text, n);
  }

  /** No key occurs anywhere in the text. */
  ghost predicate NoKeyIn(m: Entries, text: string)
  {
    forall key :: key in m && key != "" ==> !Contains(text, key)
  }

  lemma NoKeyInPart(m: Entries, a: string, b: string, c: string)
    requires NoKeyIn(m, a + b + c)
    ensures NoKeyIn(m, b)
  {
    forall key | key in m && key != ""
      ensures !Contains(b, key)
    {
      if Contains(b, key) {
        ContainsPart(a, b, c, key);
      }
    }
  }

  /** Text in which no key occurs is left alone. */
  lemma {:induction false} NothingToRestore(m: Entries, text: string)
    requires NoKeyIn(m, text)
    ensures Unredacted(m, text) == text
  {
    if text != "" {
      var n := LongestKey(m, text, |text|);
      if n > 0 {
        assert OccursAt(text, text[..n], 0);
        assert Contains(text, text[..n]);
      }
      assert [text[0]] + text[1..] + "" == text;
      NoKeyInPart(m, [text[0]], text[1..], "");
      NothingToRestore(m, text[1..]);
    }
  }

  /** All keys consist of letters only. */
  ghost predicate LetterKeys(m: Entries)
  {
    forall key :: key in m ==> key != "" && IsLetters(key)
  }

  /** A key cannot reach across a character that is no letter. */
  lemma LongestKeyStops(m: Entries, a: string, c: char, b: string)
    requires LetterKeys(m) && !IsLetter(c)
    ensures var text := a + [c] + b;
            LongestKey(m, text, |text|) == LongestKey(m, a, |a|)
  {
    var text := a + [c] + b;
    var r := LongestKey(m, a, |a|);
    assert text[..r] == a[..r];
    forall k | r < k <= |text|
      ensures text[..k] !in m
    {
      if k <= |a| {
        assert text[..k] == a[..k];
      } else {
        assert text[..k][|a|] == c;
      }
    }
    LongestKeyIs(m, text, r);
  }

  lemma HeadStops(m: Entries, a: string, c: char, b: string)
    requires LetterKeys(m) && !IsLetter(c)
    ensures var text := a + [c] + b;
            && Head(m, text) == (if a == "" then 1 else Head(m, a))
            && HeadRestored(m, text) == (if a == "" then [c] else HeadRestored(m, a))
  {
    LongestKeyStops(m, a, c, b);
    var text := a + [c] + b;
    var n := LongestKey(m, a, |a|);
    assert text[..n] == a[..n];
  }

  /** What stands on the two sides of such a character is restored independently. */
  lemma {:induction false} RestoresApart(m: Entries, a: string, c: char, b: string)
    requires LetterKeys(m) && !IsLetter(c)
    ensures Unredacted(m, a + [c] + b) == Unredacted(m, a) + [c] + Unredacted(m, b)
    decreases |a|
  {
    hide Unredacted, LetterKeys;
    var text := a + [c] + b;
    HeadStops(m, a, c, b);
    UnredactedHead(m, text);
    if a == "" {
      assert text[1..] == b;
      EmptyText(m);
      assert [c] + Unredacted(m, b) == "" + [c] + Unredacted(m, b);
    } else {
      UnredactedHead(m, a);
      var k, head := Head(m, a), HeadRestored(m, a);
      assert text[k..] == a[k..] + [c] + b;
      RestoresApart(m, a[k..], c, b);
      var u, v := Unredacted(m, a[k..]), Unredacted(m, b);
      assert head + (u + [c] + v) == (head + u) + [c] + v;
    }
  }

  lemma {:induction false} PassesApart(m: Entries, n: nat, a: string, c: char, b: string)
    requires LetterKeys(m) && !IsLetter(c)
    ensures Passes(m, n, a + [c] + b) == Passes(m, n, a) + [c] + Passes(m, n, b)
    decreases n
  {
    if n > 0 {
      RestoresApart(m, a, c, b);
      PassesApart(m, n - 1, Unredacted(m, a), c, Unredacted(m, b));
    }
  }

  lemma {:induction false} LastPass(m: Entries, n: nat, text: string)
    ensures Passes(m, n + 1, text) == Unredacted(m, Passes(m, n, text))
    decreases n
  {
    if n > 0 {
      LastPass(m, n - 1, Unredacted(m, text));
    }
  }

  /** A key alone is restored to its original. */
  lemma RestoresKey(m: Entries, key: string)
    requires key in m && key != ""
    ensures Unredacted(m, key) == m[key]
  {
    assert key[..|key|] == key;
    assert LongestKey(m, key, |key|) == |key|;
    assert key[|key|..] == "";
  }
}
