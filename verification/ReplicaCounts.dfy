/** Replica counts by their characters and numbers, and what a reversible patch can do to them. */
module ReplicaCounts {
  import opened Options
  import opened MergePatch
  import opened Numerals
  import opened ActionPolicy

  // --------------------------------------------------------------- what reads as a count

  /** An integer of 64 bits in decimal, with an optional sign. */
  predicate IsNumeral(t: string, n: int) {
    && -9223372036854775808 <= n <= 9223372036854775807
    && exists digits | digits in [t, if t == "" then "" else t[1..]] && IsDigits(digits) ::
         || (t == digits && n == Digits(digits))
         || (t == "+" + digits && n == Digits(digits))
         || (t == "-" + digits && n == 0 - Digits(digits))
  }

  /** The text is the numeral with any space around it. */
  predicate Around(s: string, i: int, j: int, n: int) {
    0 <= i <= j <= |s| && Spaces(s[..i]) && IsNumeral(s[i..j], n) && Spaces(s[j..])
  }

  lemma AtoiIff(t: string, n: int)
    ensures Atoi(t) == Some(n) <==> IsNumeral(t, n)
  {
    if t != "" {
      var rest := t[1..];
      assert t == [t[0]] + rest;
      assert t[0] in t;
      assert forall digits :: (t == "+" + digits || t == "-" + digits) ==> digits == rest;
    }
  }

  lemma NumeralsAreTight(t: string, n: int)
    requires IsNumeral(t, n)
    ensures t != "" && !IsSpace(t[0]) && !IsSpace(t[|t| - 1])
  {
    var digits :| digits in [t, if t == "" then "" else t[1..]] && IsDigits(digits) &&
      (t == digits || t == "+" + digits || t == "-" + digits);
    assert digits[|digits| - 1] == t[|t| - 1] && digits[|digits| - 1] in digits && digits[0] in digits;
  }

  lemma TrimsToNumeral(s: string, i: int, j: int, n: int)
    requires Around(s, i, j, n)
    ensures TrimRight(TrimLeft(s)) == s[i..j]
  {
    var t := s[i..];
    NumeralsAreTight(s[i..j], n);
    TrimLeftPast(s, i);
    assert t[0] == s[i..j][0];
    assert t[..j - i] == s[i..j] && t[j - i..] == s[j..];
    TrimRightPast(t, j - i);
  }

  /** What reads as the count `n`: a number cut towards zero, and a numeral with any space
      around it. */
  lemma CountIs(v: Json, n: int)
    ensures ToInt(v) == Some(n) <==>
      || (v.Num? && (if n > 0 then n as real <= v.n < (n + 1) as real
                     else if n < 0 then (n - 1) as real < v.n <= n as real
                     else -1.0 < v.n < 1.0))
      || (v.Str? && exists i, j :: Around(v.s, i, j, n))
  {
    if v.Str? {
      var s := v.s;
      var i := TrimLeftIs(s);
      var k := TrimRightIs(s[i..]);
      var t := s[i..i + k];
      assert s[i..][..k] == t && s[i..][k..] == s[i + k..];
      AtoiIff(t, n);
      if ToInt(v) == Some(n) { assert Around(s, i, i + k, n); }
      forall a, b | Around(s, a, b, n) ensures IsNumeral(t, n) { TrimsToNumeral(s, a, b, n); }
    }
  }

  /** One or more zeros after an optional sign. */
  predicate Zeros(t: string) {
    var digits := if t != "" && (t[0] == '-' || t[0] == '+') then t[1..] else t;
    digits != "" && forall c | c in digits :: c == '0'
  }

  /** What reads as zero: a number strictly between -1 and 1, and a text that is zeros after an
      optional sign with any space around them. */
  lemma ReadsZeroIff(v: Json)
    ensures ToInt(v) == Some(0) <==>
      || (v.Num? && -1.0 < v.n < 1.0)
      || (v.Str? && exists i, j | 0 <= i <= j <= |v.s| :: Spaces(v.s[..i]) && Zeros(v.s[i..j]) && Spaces(v.s[j..]))
  {
    CountIs(v, 0);
    if v.Str? {
      var s := v.s;
      forall i, j | 0 <= i <= j <= |s| ensures IsNumeral(s[i..j], 0) <==> Zeros(s[i..j]) { ZeroNumeral(s[i..j]); }
      assert forall i, j | Around(s, i, j, 0) :: Spaces(s[..i]) && Zeros(s[i..j]) && Spaces(s[j..]);
      assert forall i, j | 0 <= i <= j <= |s| && Spaces(s[..i]) && Zeros(s[i..j]) && Spaces(s[j..]) :: Around(s, i, j, 0);
    }
  }

  lemma ZeroNumeral(t: string)
    ensures IsNumeral(t, 0) <==> Zeros(t)
  {
    var digits := if t != "" && (t[0] == '-' || t[0] == '+') then t[1..] else t;
    if IsDigits(digits) { DigitsAreZero(digits); }
    AtoiIff(t, 0);
  }

  // ------------------------------------------------------------------ what is reversible

  /** The document sets the replica count to `v`. */
  predicate SetsCount(doc: Json, v: Json) {
    && doc.Obj? && "spec" in doc.m && doc.m["spec"].Obj?
    && "replicas" in doc.m["spec"].m && doc.m["spec"].m["replicas"] == v
  }

  /** The parameter carries the document: decoded already, or as text of an object or of null. */
  predicate Carries(decode: Decoder, p: Param, doc: Json) {
    || (p == Document(doc) && doc.Obj?)
    || (p.Text? && decode(p.s) == Some(doc) && (doc.Obj? || doc.Null?))
  }

  /** The parameter carries a document that sets no count, or one that reads as an integer
      other than zero. */
  ghost predicate Harmless(decode: Decoder, p: Param) {
    exists doc :: Carries(decode, p, doc) && forall v | SetsCount(doc, v) :: exists n :: ToInt(v) == Some(n) && n != 0
  }

  lemma HarmlessIff(decode: Decoder, params: map<string, Param>, key: string)
    requires key in params
    ensures Harmless(decode, params[key]) <==> !ParamScalesToZero(decode, params, key)
  {
    var p := params[key];
    var found := DocumentOf(decode, p);
    assert forall doc :: Carries(decode, p, doc) <==> found == Some(doc);
    if found.Some? {
      var doc := found.value;
      assert HasReplicas(doc) ==> SetsCount(doc, Replicas(doc));
      assert forall v | SetsCount(doc, v) :: HasReplicas(doc) && v == Replicas(doc);
      assert ToInt(Replicas(doc)).Some? ==> ToInt(Replicas(doc)) == Some(ToInt(Replicas(doc)).value);
    }
  }

  /** A patch or a manifest is reversible exactly when each payload there is is harmless. */
  lemma ReversibleIff(decode: Decoder, kind: string, targetKind: string, params: map<string, Param>)
    ensures ActionLevel(decode, kind, targetKind, params) == Reversible <==>
      && (kind == "k8s_patch" || kind == "k8s_apply")
      && ("patch" in params ==> Harmless(decode, params["patch"]))
      && ("manifest" in params ==> Harmless(decode, params["manifest"]))
  {
    if "patch" in params { HarmlessIff(decode, params, "patch"); }
    if "manifest" in params { HarmlessIff(decode, params, "manifest"); }
  }

  /** Whatever a reversible patch is merged into: if the count of the result reads as zero, it
      is the count that was there. */
  lemma ReversibleNeverZeroes(decode: Decoder, targetKind: string, params: map<string, Param>, doc: Json, target: Json, v: Json)
    requires ActionLevel(decode, "k8s_patch", targetKind, params) == Reversible
    requires "patch" in params && Carries(decode, params["patch"], doc)
    requires SetsCount(Merge(target, doc), v) && ToInt(v) == Some(0)
    ensures SetsCount(target, v)
  {
    if !SetsCount(target, v) {
      assert AtZero(target) ==> SetsCount(target, Replicas(target));
      MergedReplicas(target, doc);
    }
  }
}
