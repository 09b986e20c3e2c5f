/** Risk levels of operations, and the scale-to-zero classifier against what a merge patch
    does to its target. */
module ActionPolicy {
  import opened Options
  import opened MergePatch
  import opened Numerals

  datatype Level = Read | Reversible | Disruptive | Destructive

  /** A parameter of an operation: text, a decoded document, or anything else. */
  datatype Param = Text(s: string) | Document(doc: Json) | Other

  /** The JSON decoder of text parameters; none for text it cannot decode. */
  type Decoder = string -> Option<Json>

  // --------------------------------------------------------------------- toIntVal

  /** The integer part, towards zero. */
  function Truncate(n: real): int {
    if n >= 0.0 then n.Floor else -((-n).Floor)
  }

  predicate IsSpace(c: char) {
    var u := c as int;
    9 <= u <= 13 || u in {0x20, 0x85, 0xA0, 0x1680, 0x2028, 0x2029, 0x202F, 0x205F, 0x3000} || 0x2000 <= u <= 0x200A
  }

  function TrimLeft(s: string): string {
    if s != "" && IsSpace(s[0]) then TrimLeft(s[1..]) else s
  }

  function TrimRight(s: string): string {
    if s != "" && IsSpace(s[|s| - 1]) then TrimRight(s[..|s| - 1]) else s
  }

  const INT_MAX: int := 0x7FFF_FFFF_FFFF_FFFF

  /** A decimal integer of 64 bits with an optional sign, and nothing else. */
  function Atoi(s: string): Option<int> {
    var signed := s != "" && (s[0] == '-' || s[0] == '+');
    var digits := if signed then s[1..] else s;
    if !IsDigits(digits) then None
    else
      var n: int := if signed && s[0] == '-' then 0 - Digits(digits) else Digits(digits);
      if -INT_MAX - 1 <= n <= INT_MAX then Some(n) else None
  }

  function ToInt(v: Json): Option<int> {
    match v
    case Num(n) => Some(Truncate(n))
    case Str(s) => Atoi(TrimRight(TrimLeft(s)))
    case _ => None
  }

  // ----------------------------------------------------------------- classification

  function Replicas(doc: Json): Json {
    At(At(doc, "spec"), "replicas")
  }

  predicate HasReplicas(doc: Json) {
    Has(At(doc, "spec"), "replicas")
  }

  /** The document sets `spec.replicas` to zero, or to something that is no integer. */
  predicate DocumentScalesToZero(doc: Json) {
    HasReplicas(doc) && (ToInt(Replicas(doc)).None? || ToInt(Replicas(doc)).value == 0)
  }

  /** The mutation document of a parameter; none when it is not one. */
  function DocumentOf(decode: Decoder, p: Param): Option<Json> {
    match p
    case Document(doc) => if doc.Obj? then Some(doc) else None
    case Text(s) =>
      (match decode(s)
       case Some(doc) => if doc.Obj? || doc.Null? then Some(doc) else None
       case None => None)
    case Other => None
  }

  function PayloadScalesToZero(decode: Decoder, params: map<string, Param>): bool {
    ParamScalesToZero(decode, params, "patch") || ParamScalesToZero(decode, params, "manifest")
  }

  predicate ParamScalesToZero(decode: Decoder, params: map<string, Param>, key: string) {
    key in params &&
      match DocumentOf(decode, params[key])
      case None => true
      case Some(doc) => DocumentScalesToZero(doc)
  }

  function ActionLevel(decode: Decoder, kind: string, targetKind: string, params: map<string, Param>): Level {
    if kind == "k8s_get" || kind == "k8s_list" then Read
    else if kind == "k8s_patch" || kind == "k8s_apply" then
      if PayloadScalesToZero(decode, params) then Destructive else Reversible
    else if kind == "k8s_delete" then
      if targetKind == "Pod" || targetKind == "Job" then Disruptive else Destructive
    else Destructive
  }

  // ------------------------------------------------------------------------ theorems

  /** The object runs at zero replicas: its replica count is a number or a numeric string
      that reads as zero. */
  predicate AtZero(o: Json) {
    HasReplicas(o) && ToInt(Replicas(o)) == Some(0)
  }

  lemma MergedReplicas(target: Json, doc: Json)
    requires doc.Obj?
    ensures HasReplicas(doc) && !Replicas(doc).Obj? && !Replicas(doc).Null? ==>
      HasReplicas(Merge(target, doc)) && Replicas(Merge(target, doc)) == Replicas(doc)
    ensures !HasReplicas(doc) && HasReplicas(Merge(target, doc)) ==>
      HasReplicas(target) && Replicas(Merge(target, doc)) == Replicas(target)
  {
    MergeMember(target, doc, "spec");
    if At(doc, "spec").Obj? {
      MergeMember(At(target, "spec"), At(doc, "spec"), "replicas");
    }
  }

  /** A document that is not flagged takes no object to zero. */
  lemma UnflaggedNeverReachesZero(target: Json, doc: Json)
    requires doc.Obj? && !DocumentScalesToZero(doc) && !AtZero(target)
    ensures !AtZero(Merge(target, doc))
  {
    MergedReplicas(target, doc);
  }

  /** Classifier soundness: a patch classified reversible takes no target to zero that was not
      there already, whether the count is a number or a numeric string. */
  lemma ReversiblePatchKeepsReplicas(decode: Decoder, targetKind: string, params: map<string, Param>, doc: Json, target: Json)
    requires "patch" in params && DocumentOf(decode, params["patch"]) == Some(doc) && doc.Obj?
    requires ActionLevel(decode, "k8s_patch", targetKind, params) == Reversible
    requires !AtZero(target)
    ensures !AtZero(Merge(target, doc))
  {
    UnflaggedNeverReachesZero(target, doc);
  }

  /** Exactness: among documents whose replica count, if they set one, reads as an integer, the
      flagged ones are those that take every target to zero, and also those that take some
      running target there. */
  lemma FlaggedExactlyWhenZero(doc: Json)
    requires doc.Obj? && (HasReplicas(doc) ==> ToInt(Replicas(doc)).Some?)
    ensures DocumentScalesToZero(doc) <==> forall target :: AtZero(Merge(target, doc))
    ensures DocumentScalesToZero(doc) <==> exists target :: !AtZero(target) && AtZero(Merge(target, doc))
  {
    assert !AtZero(EMPTY);
    if DocumentScalesToZero(doc) {
      forall target ensures AtZero(Merge(target, doc)) { MergedReplicas(target, doc); }
      MergedReplicas(EMPTY, doc);
      assert !AtZero(EMPTY) && AtZero(Merge(EMPTY, doc));
    } else {
      forall target | !AtZero(target) ensures !AtZero(Merge(target, doc)) { UnflaggedNeverReachesZero(target, doc); }
      assert !AtZero(Merge(EMPTY, doc));
    }
  }

  /** What each level means: reads read, reversible operations are patches and manifests whose
      every payload is readable and sets no zero count, disruptive ones delete what controllers
      recreate, and everything else, known or not, is destructive. */
  lemma LevelIff(decode: Decoder, kind: string, targetKind: string, params: map<string, Param>)
    ensures var level := ActionLevel(decode, kind, targetKind, params);
      && (level == Read <==> kind in {"k8s_get", "k8s_list"})
      && (level == Reversible <==>
            && kind in {"k8s_patch", "k8s_apply"}
            && forall key | key in params && key in {"patch", "manifest"} ::
                 DocumentOf(decode, params[key]).Some? && !DocumentScalesToZero(DocumentOf(decode, params[key]).value))
      && (level == Disruptive <==> kind == "k8s_delete" && targetKind in {"Pod", "Job"})
  {
    assert ParamScalesToZero(decode, params, "patch") ==> "patch" in params && "patch" in {"patch", "manifest"};
    assert ParamScalesToZero(decode, params, "manifest") ==> "manifest" in params && "manifest" in {"patch", "manifest"};
  }

  predicate Spaces(s: string) {
    forall c | c in s :: IsSpace(c)
  }

  lemma {:induction false} TrimLeftPast(s: string, i: nat)
    requires i <= |s| && Spaces(s[..i])
    ensures TrimLeft(s) == TrimLeft(s[i..])
    decreases i
  {
    if i == 0 {
      assert s[0..] == s;
    } else {
      assert s[..i][0] in s[..i];
      assert s[1..][..i - 1] == s[..i][1..] && s[1..][i - 1..] == s[i..];
      assert forall c | c in s[..i][1..] :: c in s[..i];
      TrimLeftPast(s[1..], i - 1);
    }
  }

  lemma {:induction false} TrimRightPast(s: string, j: nat)
    requires j <= |s| && Spaces(s[j..])
    ensures TrimRight(s) == TrimRight(s[..j])
    decreases |s| - j
  {
    if j == |s| {
      assert s[..j] == s;
    } else {
      var n := |s| - 1;
      assert s[j..][n - j] == s[n] && s[n] in s[j..];
      assert s[..n][j..] == s[j..][..n - j] && s[..n][..j] == s[..j];
      assert forall c | c in s[j..][..n - j] :: c in s[j..];
      TrimRightPast(s[..n], j);
    }
  }

  lemma {:induction false} TrimLeftIs(s: string) returns (i: nat)
    ensures i <= |s| && Spaces(s[..i]) && TrimLeft(s) == s[i..]
    decreases |s|
  {
    if s != "" && IsSpace(s[0]) {
      var k := TrimLeftIs(s[1..]);
      i := k + 1;
      assert s[..i] == [s[0]] + s[1..][..k] && s[i..] == s[1..][k..];
    } else {
      i := 0;
      assert s[0..] == s;
    }
  }

  lemma {:induction false} TrimRightIs(s: string) returns (j: nat)
    ensures j <= |s| && Spaces(s[j..]) && TrimRight(s) == s[..j]
    decreases |s|
  {
    if s != "" && IsSpace(s[|s| - 1]) {
      var n := |s| - 1;
      j := TrimRightIs(s[..n]);
      assert s[j..] == s[..n][j..] + [s[n]] && s[..j] == s[..n][..j];
    } else {
      j := |s|;
      assert s[..j] == s;
    }
  }
}
