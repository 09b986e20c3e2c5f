/** Panel keys by the words of the titles they are made of. */
module PanelTitles {
  import opened Dashboards
  import opened Numerals

  /** A word: letters and digits, and at least one. */
  predicate IsWord(w: string) {
    w != "" && forall c | c in w :: 'A' <= c <= 'Z' || 'a' <= c <= 'z' || '0' <= c <= '9'
  }

  /** No letter or digit in it. */
  predicate Separates(s: string) {
    forall c | c in s :: !('A' <= c <= 'Z' || 'a' <= c <= 'z' || '0' <= c <= '9')
  }

  /** The word with its first letter in upper case. */
  function Capital(w: string): string
    requires w != ""
  {
    [if 'a' <= w[0] <= 'z' then (w[0] as int - 32) as char else w[0]] + w[1..]
  }

  lemma {:induction false} RestOfWord(w: string, rest: string)
    requires forall c | c in w :: IsAlnum(c)
    requires rest == "" || !IsAlnum(rest[0])
    ensures Pascal(w + rest, false) == w + Pascal(rest, true)
    decreases |w|
  {
    if w == "" {
      assert w + rest == rest;
      assert rest != "" ==> Pascal(rest, true) == Pascal(rest[1..], true) == Pascal(rest, false);
    } else {
      assert (w + rest)[0] == w[0] && (w + rest)[1..] == w[1..] + rest;
      assert w[0] in w && forall c | c in w[1..] :: c in w;
      RestOfWord(w[1..], rest);
    }
  }

  lemma {:induction false} SkipSeparators(s: string, rest: string)
    requires Separates(s)
    ensures Pascal(s + rest, true) == Pascal(rest, true)
    decreases |s|
  {
    if s == "" {
      assert s + rest == rest;
    } else {
      assert (s + rest)[0] == s[0] && (s + rest)[1..] == s[1..] + rest;
      assert s[0] in s && forall c | c in s[1..] :: c in s;
      SkipSeparators(s[1..], rest);
    }
  }

  lemma WordFirst(w: string, rest: string)
    requires IsWord(w) && (rest == "" || !IsAlnum(rest[0]))
    ensures Pascal(w + rest, true) == Capital(w) + Pascal(rest, true)
  {
    assert w[0] in w && forall c | c in w[1..] :: c in w;
    assert (w + rest)[0] == w[0] && (w + rest)[1..] == w[1..] + rest;
    RestOfWord(w[1..], rest);
    Associative([Upper(w[0])], w[1..], Pascal(rest, true));
  }

  lemma Associative(a: string, b: string, c: string)
    ensures a + (b + c) == a + b + c
  {}

  /** Word by word: whatever separates it from the rest of the title, a word goes into the key
      capitalised, and separators do not. */
  lemma KeyWordByWord(s: string, w: string, rest: string)
    requires Separates(s) && IsWord(w) && (rest == "" || Separates([rest[0]]))
    ensures Pascal(s + w + rest, true) == Capital(w) + Pascal(rest, true)
    ensures Pascal(s, true) == ""
  {
    SkipSeparators(s, w + rest);
    SkipSeparators(s, "");
    Associative(s, w, rest);
    assert s + "" == s;
    if rest != "" { assert rest[0] in [rest[0]]; }
    WordFirst(w, rest);
  }

  /** A title that is one word with a capital or a digit in front is its own key, so different
      such titles have different keys. */
  lemma WordIsItsKey(w: string, i: nat)
    requires IsWord(w) && !('a' <= w[0] <= 'z')
    ensures PanelKey(w, i) == w
  {
    KeyWordByWord("", w, "");
    assert "" + w + "" == w && Capital(w) == w;
    assert w + Pascal("", true) == w;
  }

  /** Titles without any word get numbered keys, all different. */
  lemma NumberedKeys(s: string, t: string, i: nat, j: nat)
    requires Separates(s) && Separates(t)
    ensures exists digits :: PanelKey(s, i) == "Panel" + digits && IsDigits(digits) && Digits(digits) == i + 1
    ensures PanelKey(s, i) == PanelKey(t, j) <==> i == j
  {
    SkipSeparators(s, "");
    SkipSeparators(t, "");
    assert s + "" == s && t + "" == t;
    var l, r := "Panel" + Decimal(i + 1), "Panel" + Decimal(j + 1);
    assert l[5..] == Decimal(i + 1) && r[5..] == Decimal(j + 1);
    DecimalReadsBack(i + 1);
    DecimalReadsBack(j + 1);
  }
}
