/** Sealing Secret captures before they leave the cluster.  The cipher is a parameter. */
module SnapshotCrypto {
  import opened Options
  import opened MergePatch
  import opened Stripping
  import opened Captures

  /** Authenticated encryption under one key: a nonce and a payload give a ciphertext, unless
      encryption is impossible, and opening gives nothing when the key is wrong or the text was
      changed. */
  datatype Vault = Vault(seal: (nat, Payload) -> Option<Cipher>, open: Cipher -> Option<Payload>)

  /** Whatever is sealed opens again. */
  ghost predicate Sound(v: Vault) {
    forall nonce, p :: v.seal(nonce, p).Some? && v.open(v.seal(nonce, p).value) == Some(p)
  }

  /** The vault of one key. */
  function KeyVault(key: nat): Vault {
    Vault((nonce: nat, p: Payload) => Some(Sealed(key, nonce, p)),
          (c: Cipher) => if c.Sealed? && c.key == key then Some(c.payload) else None)
  }

  /** Every key gives a sound vault, and no other key opens what it sealed. */
  lemma SoundVaultExists(key: nat)
    ensures Sound(KeyVault(key))
    ensures forall other: nat, nonce, p | other != key :: KeyVault(other).open(KeyVault(key).seal(nonce, p).value) == None
  {}

  /** The copy of a capture that may be stored off-cluster.  When sealing is impossible the
      payload is dropped. */
  function EncryptForDurable(v: Vault, nonce: nat, c: Capture): Capture {
    if c.ref.kind != "Secret" || (c.before.Null? && c.fields == []) then c
    else c.(before := Null, fields := [], enc := v.seal(nonce, Payload(c.before, c.fields)))
  }

  function DecryptCapture(v: Vault, c: Capture): Capture {
    match c.enc
    case None => c
    case Some(text) =>
      match v.open(text)
      case None => c.(enc := None)
      case Some(p) => c.(enc := None, before := p.before, fields := p.fields)
  }

  /** The durable copy opens to the capture itself. */
  lemma DecryptsToItself(v: Vault, nonce: nat, c: Capture)
    requires Sound(v) && c.enc.None?
    ensures DecryptCapture(v, EncryptForDurable(v, nonce, c)) == c
  {
    var p := Payload(c.before, c.fields);
    assert v.seal(nonce, p).Some? && v.open(v.seal(nonce, p).value) == Some(p);
  }

  /** What is stored: a capture of any other kind as it is, and of a Secret neither the object
      nor a field, but only the ciphertext of the two; the rest of the entry is kept. */
  lemma StoredCopyIs(v: Vault, nonce: nat, c: Capture)
    ensures var stored := EncryptForDurable(v, nonce, c);
      && (c.ref.kind != "Secret" ==> stored == c)
      && (c.ref.kind == "Secret" ==> stored.before == Null && stored.fields == [])
      && (c.ref.kind == "Secret" && !(c.before == Null && c.fields == []) ==>
            stored.enc == v.seal(nonce, Payload(c.before, c.fields)))
      && stored == c.(before := stored.before, fields := stored.fields, enc := stored.enc)
  {}

  /** Two Secret captures of the same object and scope that seal alike are stored alike: the
      stored copy depends on the payload only through its ciphertext. */
  lemma StoredOnlySealed(v: Vault, nonce: nat, c: Capture, c': Capture)
    requires c.ref.kind == "Secret" && c' == c.(before := c'.before, fields := c'.fields)
    requires !(c.before.Null? && c.fields == []) && !(c'.before.Null? && c'.fields == [])
    requires v.seal(nonce, Payload(c.before, c.fields)) == v.seal(nonce, Payload(c'.before, c'.fields))
    ensures EncryptForDurable(v, nonce, c) == EncryptForDurable(v, nonce, c')
  {
  }

  // ------------------------------------------------------ captures without payload

  /** The stored capture carries no payload that opens: it was sealed under another key, it was
      changed, or it could not be sealed in the first place. */
  predicate Unopened(v: Vault, c: Capture) {
    c.before.Null? && c.fields == [] && (c.enc.Some? ==> v.open(c.enc.value).None?)
  }

  /** A Secret capture that could not be sealed, or was sealed under another key, is one. */
  lemma UnopenedWhenKeyIsLost(v: Vault, sealer: Vault, nonce: nat, c: Capture)
    requires c.ref.kind == "Secret" && c.enc.None? && !(c.before.Null? && c.fields == [])
    ensures var sealed := sealer.seal(nonce, Payload(c.before, c.fields));
            Unopened(v, EncryptForDurable(sealer, nonce, c)) <==> sealed.None? || v.open(sealed.value).None?
  {
  }

  /** What is sent for a live object whose capture does not open: a patch that removes every
      member of its snapshot, its metadata with its name among them. */
  lemma UnopenedPatchRemovesAll(v: Vault, c: Capture, got: Json, k: string)
    requires Unopened(v, c)
    ensures var patch := RestorePatch(DecryptCapture(v, c).before, Strip(got));
            (Has(patch, k) <==> Has(Strip(got), k)) && (Has(patch, k) ==> patch.m[k].Null?)
  {
    RestorePatchMember(DecryptCapture(v, c).before, Strip(got), k);
  }

  /** So a whole-object capture that does not open does not leave the live object alone: where
      the patch is accepted, it removes everything but the server-owned fields. */
  lemma UnopenedObjectCaptureErases(d: Discovery, v: Vault, c: Capture, cl: Cluster, id: ObjId)
    requires Unopened(v, c) && c.existed && c.scope.ObjectScope? && On(d, c, id) && id in cl
    ensures Strip(Undo(d, DecryptCapture(v, c), cl)[id]) == EMPTY
    ensures Canon(Undo(d, DecryptCapture(v, c), cl)[id]) == EMPTY
  {
    var cur := Strip(cl[id]);
    assert RestorePatch(Null, cur) == RestorePatch(EMPTY, cur);
    RestoreIsExact(cl[id], EMPTY);
    RestoreContent(cl[id], EMPTY);
    assert DropNulls(EMPTY).m == map[];
    assert CanonTop(EMPTY).m == map[];
  }

  /** A missing object is created again with nothing but its kind and API version. */
  lemma UnopenedObjectCaptureCreatesHusk(d: Discovery, v: Vault, c: Capture, cl: Cluster, id: ObjId)
    requires Unopened(v, c) && c.existed && c.scope.ObjectScope? && On(d, c, id) && id !in cl
    ensures var r := Undo(d, DecryptCapture(v, c), cl);
            && r.Keys == cl.Keys + {id} && (forall j | j in cl :: r[j] == cl[j])
            && (forall k | Has(r[id], k) :: k == "kind" || k == "apiVersion")
            && At(r[id], "kind") == Str(c.ref.kind)
  {
  }

  /** An unopened field capture, by contrast, changes nothing. */
  lemma UnopenedFieldCaptureIsNoOp(d: Discovery, v: Vault, c: Capture, cl: Cluster)
    requires Unopened(v, c) && c.scope.FieldScope? && IsCluster(cl)
    ensures Undo(d, DecryptCapture(v, c), cl) == cl
  {
    var c' := DecryptCapture(v, c);
    if Target(d, c.ref).Some? && Target(d, c.ref).value in cl {
      var o := cl[Target(d, c.ref).value];
      assert UndosOf(c'.fields) == [];
      assert Merge(o, EMPTY).m == o.m;
    }
  }

  /** When undoing an unopened capture does nothing: exactly when it is a field capture, or its
      reference does not resolve, or it records an absence and the object is absent, or the
      live object has an empty snapshot anyway. */
  lemma UnopenedIsNoOpIff(d: Discovery, v: Vault, c: Capture, cl: Cluster)
    requires Unopened(v, c) && IsCluster(cl)
    ensures SameContent(Undo(d, DecryptCapture(v, c), cl), cl) <==>
      match Target(d, c.ref)
      case None => true
      case Some(id) =>
        || c.scope.FieldScope?
        || (if c.existed then id in cl && Strip(DropNulls(cl[id])) == EMPTY else id !in cl)
  {
    var target := Target(d, c.ref);
    var r := Undo(d, DecryptCapture(v, c), cl);
    if c.scope.FieldScope? {
      UnopenedFieldCaptureIsNoOp(d, v, c, cl);
    } else if target.Some? {
      var id := target.value;
      if c.existed && id in cl {
        UnopenedObjectCaptureErases(d, v, c, cl, id);
        EmptyContentIff(cl[id]);
        assert r == cl[id := r[id]];
      } else {
        assert id in r <==> c.existed;
      }
    }
  }

  lemma EmptyContentIff(x: Json)
    ensures Canon(x) == EMPTY <==> Strip(DropNulls(x)) == EMPTY
  {
    SameContentSameSnapshot(x, EMPTY);
    assert DropNulls(EMPTY).m == map[];
    assert CanonTop(EMPTY).m == map[];
    assert Erase(EMPTY).m == map[];
  }
}
