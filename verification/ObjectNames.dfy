/** Which object a reference reaches, and under which API it is created again. */
module ObjectNames {
  import opened Options
  import opened MergePatch
  import opened Captures

  /** The resource a kind is found under: by the kind table unless the script names a resource
      itself, and otherwise by the parsed API version with `v1` for a missing version and the
      kind in lower case with an `s` for a missing resource. */
  predicate ServedAs(d: Discovery, ref: Ref, gvr: Gvr) {
    if ref.resource == "" && ref.kind in d.kinds then gvr == d.kinds[ref.kind]
    else
      && d.parse(ref.apiVersion).Some?
      && var (group, version) := d.parse(ref.apiVersion).value;
      && gvr.group == group
      && (version != "" ==> gvr.version == version) && (version == "" ==> gvr.version == "v1")
      && (ref.resource != "" ==> gvr.resource == ref.resource)
      && (ref.resource == "" ==> gvr.resource == d.lower(ref.kind) + "s")
  }

  /** The object a reference reaches: the one of its name, outside every namespace for the three
      cluster-scoped kinds and for the namespace `-` or none, and otherwise in its namespace.
      It reaches none only where the kind table does not apply and the API version is
      malformed. */
  lemma TargetIs(d: Discovery, ref: Ref, id: ObjId)
    ensures Target(d, ref) == Some(id) <==>
      && ServedAs(d, ref, id.gvr)
      && id.name == ref.name
      && id.namespace == (if ref.kind == "Node" || ref.kind == "Namespace" || ref.kind == "PersistentVolume" ||
                             ref.namespace == "-" then "" else ref.namespace)
    ensures Target(d, ref) == None <==>
      (ref.resource != "" || ref.kind !in d.kinds) && d.parse(ref.apiVersion) == None
  {}

  /** References of one kind, resource and API version reach one object exactly when they have
      the same name and, if the kind has namespaces, the same namespace. */
  lemma SameObjectIff(d: Discovery, a: Ref, b: Ref)
    requires a.kind == b.kind && a.resource == b.resource && a.apiVersion == b.apiVersion
    requires Target(d, a).Some?
    ensures Target(d, a) == Target(d, b) <==>
      && a.name == b.name
      && (|| a.kind in {"Node", "Namespace", "PersistentVolume"}
          || a.namespace == b.namespace
          || (a.namespace in {"", "-"} && b.namespace in {"", "-"}))
  {}

  /** The API version an object is created again under: its own, else the one of the kind table,
      written as `version` or `group/version`, else the one the script gave, else none. */
  lemma CreatedUnder(d: Discovery, o: Json, ref: Ref)
    ensures var own, version := At(o, "apiVersion"), At(EnsureGvk(d, o, ref), "apiVersion");
      if own.Str? && own.s != "" then version == own
      else if ref.kind in d.kinds then version == TableVersion(d.kinds[ref.kind])
      else if ref.apiVersion != "" then version == Str(ref.apiVersion)
      else version == own
  {}

  function TableVersion(gvr: Gvr): Json {
    match gvr
    case Gvr("", version, _) => Str(version)
    case Gvr(group, version, _) => Str(group + "/" + version)
  }
}
