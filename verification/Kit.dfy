/** The client kit: reading its archive, and verifying it against the signed
    release manifest it carries. Digests, the JSON reader, the signature scheme
    and lower-casing are functions given from outside. */
module Kit {
  import opened Wrappers

  // ---------------------------------------------------------------- the archive

  /** An archive entry: its name and content when they can be read. */
  datatype ZipEntry = ZipEntry(name: Option<string>, regular: bool, content: Option<Bytes>)

  type Members = map<string, Bytes>

  datatype KitError =
    | Damaged
    | NotRelative
    | NotRegular
    | Twice
    | CaseCollision
    | Missing
    | Unlisted
    | Signature
    | Manifest
    | SumsDisagree
    | UnknownMember
    | WrongLength
    | WrongDigest
    | Unbound

  predicate HasDotDot(name: string) {
    exists i :: 0 <= i < |name| - 1 && name[i] == '.' && name[i + 1] == '.'
  }

  predicate Relative(name: string) {
    !("/" <= name) && !HasDotDot(name) && '\\' !in name
  }

  predicate Sound(entry: ZipEntry) {
    entry.name.Some? && Relative(entry.name.value) && entry.regular && entry.content.Some?
  }

  /** Every entry can be used, and no two names are the same up to case. */
  ghost predicate Readable(archive: seq<ZipEntry>, lower: string -> string) {
    && (forall i :: 0 <= i < |archive| ==> Sound(archive[i]))
    && forall i, j :: 0 <= i < j < |archive| ==> lower(archive[i].name.value) != lower(archive[j].name.value)
  }

  ghost predicate Named(archive: seq<ZipEntry>, name: string) {
    exists i :: 0 <= i < |archive| && archive[i].name == Some(name)
  }

  /** The map holds exactly these entries. */
  ghost predicate Holds(members: Members, archive: seq<ZipEntry>) {
    && (forall i :: 0 <= i < |archive| ==>
          && archive[i].name.Some? && archive[i].content.Some?
          && archive[i].name.value in members && members[archive[i].name.value] == archive[i].content.value)
    && forall name :: name in members ==> Named(archive, name)
  }

  lemma OneEntryMore(members: Members, archive: seq<ZipEntry>, lower: string -> string, entry: ZipEntry)
    requires Readable(archive, lower) && Holds(members, archive) && Sound(entry)
    requires forall i :: 0 <= i < |archive| ==> lower(archive[i].name.value) != lower(entry.name.value)
    ensures Readable(archive + [entry], lower)
    ensures Holds(members[entry.name.value := entry.content.value], archive + [entry])
  {
    var more, all := archive + [entry], members[entry.name.value := entry.content.value];
    assert more[|archive|] == entry;
    forall name | name in all
      ensures Named(more, name)
    {
      if name != entry.name.value {
        assert Named(archive, name);
        var i :| 0 <= i < |archive| && archive[i].name == Some(name);
        assert more[i].name == Some(name);
      }
    }
  }

  lemma NameSeen(archive: seq<ZipEntry>, members: Members, i: nat, name: string)
    requires i < |archive| && Holds(members, archive[..i])
    ensures name in members <==> exists j :: 0 <= j < i && archive[j].name == Some(name)
  {
    if name in members {
      assert Named(archive[..i], name);
      var j :| 0 <= j < i && archive[..i][j].name == Some(name);
      assert archive[j].name == Some(name);
    }
    if exists j :: 0 <= j < i && archive[j].name == Some(name) {
      var j :| 0 <= j < i && archive[j].name == Some(name);
      assert archive[..i][j].name.value in members;
    }
  }

  lemma SameNameSameFold(archive: seq<ZipEntry>, lower: string -> string, members: Members, i: nat)
    requires i < |archive| && Sound(archive[i]) && Readable(archive[..i], lower) && Holds(members, archive[..i])
    requires archive[i].name.value in members
    ensures !Readable(archive, lower)
  {
    assert Named(archive[..i], archive[i].name.value);
    var j :| 0 <= j < i && archive[..i][j].name == archive[i].name;
    assert archive[j].name == archive[i].name;
  }

  /** Why an entry is refused, those before it having been taken. */
  ghost function EntryFault(archive: seq<ZipEntry>, lower: string -> string, i: nat): Option<KitError>
    requires i < |archive| && forall j :: 0 <= j < i ==> archive[j].name.Some?
  {
    var entry := archive[i];
    if entry.name.None? then Some(Damaged)
    else if !Relative(entry.name.value) then Some(NotRelative)
    else if !entry.regular then Some(NotRegular)
    else if exists j :: 0 <= j < i && archive[j].name == entry.name then Some(Twice)
    else if exists j :: 0 <= j < i && lower(archive[j].name.value) == lower(entry.name.value) then Some(CaseCollision)
    else if entry.content.None? then Some(Damaged)
    else None
  }

  /** The first entry refused, and why. */
  ghost predicate FirstFault(archive: seq<ZipEntry>, lower: string -> string, error: KitError) {
    exists i :: 0 <= i < |archive| && Readable(archive[..i], lower)
      && (forall j :: 0 <= j < i ==> archive[j].name.Some?) && EntryFault(archive, lower, i) == Some(error)
  }

  lemma FaultAt(archive: seq<ZipEntry>, lower: string -> string, i: nat)
    requires i < |archive| && Readable(archive[..i], lower)
    ensures forall j :: 0 <= j < i ==> archive[j].name.Some?
    ensures EntryFault(archive, lower, i).Some? ==> FirstFault(archive, lower, EntryFault(archive, lower, i).value)
  {
    forall j | 0 <= j < i
      ensures archive[j].name.Some?
    {
      assert archive[..i][j] == archive[j];
    }
  }

  /** Refuses duplicates, absolute or climbing paths, anything but regular
      files, and names that differ only by case. */
  method ReadZip(archive: seq<ZipEntry>, lower: string -> string) returns (r: Result<Members, KitError>)
    ensures r.Ok? <==> Readable(archive, lower)
    ensures r.Ok? ==> Holds(r.value, archive)
    ensures r.Err? ==> FirstFault(archive, lower, r.error)
  {
    hide HasDotDot, Relative, FirstFault;
    var members: Members, seenFolded: seq<string> := map[], [];
    for i := 0 to |archive|
      invariant Readable(archive[..i], lower) && Holds(members, archive[..i])
      invariant |seenFolded| == i
      invariant forall j :: 0 <= j < i ==> archive[j].name.Some? && seenFolded[j] == lower(archive[j].name.value)
    {
      var entry := archive[i];
      FaultAt(archive, lower, i);
      if entry.name.None? {
        return Err(Damaged);
      }
      var name := entry.name.value;
      if !Relative(name) {
        return Err(NotRelative);
      }
      if !entry.regular {
        return Err(NotRegular);
      }
      if name in members {
        NameSeen(archive, members, i, name);
        if entry.content.Some? {
          SameNameSameFold(archive, lower, members, i);
        }
        return Err(Twice);
      }
      NameSeen(archive, members, i, name);
      var folded := lower(name);
      if folded in seenFolded {
        return Err(CaseCollision);
      }
      seenFolded := seenFolded + [folded];
      if entry.content.None? {
        return Err(Damaged);
      }
      OneEntryMore(members, archive[..i], lower, entry);
      assert archive[..i + 1] == archive[..i] + [entry];
      members := members[name := entry.content.value];
    }
    assert archive[..|archive|] == archive;
    return Ok(members);
  }

  // ---------------------------------------------------------------- the manifest

  const RELEASE := "release.json"
  const SIGNATURE := "release.json.minisig"
  const SUMS := "SHA256SUMS"

  const RELEASE_SET := {RELEASE, SIGNATURE, SUMS}

  const KIT_ONLY := [
    "README.txt",
    "payload/macos-x86_64/jaynshare",
    "payload/macos-aarch64/jaynshare",
    "payload/windows-x86_64/jaynshare.exe"]

  /** The manifest as far as verification reads it; a member of the wrong type
      reads as missing. */
  datatype Release = Release(schema: Option<int>, sums: Option<string>, artifacts: Option<seq<Artifact>>, version: string)
  datatype Artifact = Artifact(purpose: Option<string>, bindings: Option<seq<RawBinding>>)
  datatype RawBinding = RawBinding(path: Option<string>, length: Option<nat>, digest: Option<string>)
  datatype Binding = Binding(path: string, length: nat, digest: string)

  datatype Minisig = Minisig(keyId: Bytes, signature: Bytes, comment: Bytes, global: Bytes)

  datatype Key = Key(id: Bytes, key: Bytes)

  /** The library calls: SHA-256 in hex, the JSON and minisign readers, and
      Ed25519 verification of a message under a key. */
  datatype Tools = Tools(
    sha256: Bytes -> string,
    release: Bytes -> Option<Release>,
    minisig: Bytes -> Option<Minisig>,
    verifies: (Bytes, Bytes, Bytes) -> bool)

  ghost predicate CollisionFree(sha256: Bytes -> string) {
    forall x, y :: sha256(x) == sha256(y) ==> x == y
  }

  /** The key ids agree, the signature covers the exact bytes, and the global
      signature covers the signature and the trusted comment. */
  predicate Signed(tools: Tools, key: Key, release: Bytes, minisig: Bytes) {
    match tools.minisig(minisig)
    case None => false
    case Some(m) =>
      && m.keyId == key.id
      && tools.verifies(key.key, release, m.signature)
      && tools.verifies(key.key, m.signature + m.comment, m.global)
  }

  function ClientKit(artifacts: seq<Artifact>): (a: Option<Artifact>)
    ensures a.Some? ==> a.value in artifacts && a.value.purpose == Some("client-kit")
  {
    if artifacts == [] then None
    else if artifacts[0].purpose == Some("client-kit") then Some(artifacts[0])
    else ClientKit(artifacts[1..])
  }

  predicate Whole(raw: RawBinding) {
    raw.path.Some? && raw.length.Some? && raw.digest.Some?
  }

  /** The member bindings of the client-kit entry, when the manifest has them whole. */
  function BindingsOf(release: Release): Option<seq<Binding>> {
    if release.artifacts.None? then None else
    match ClientKit(release.artifacts.value)
    case Some(Artifact(_, Some(raw))) =>
      if forall i :: 0 <= i < |raw| ==> Whole(raw[i]) then
        Some(seq(|raw|, i requires 0 <= i < |raw| => Binding(raw[i].path.value, raw[i].length.value, raw[i].digest.value)))
      else None
    case _ => None
  }

  predicate Met(tools: Tools, members: Members, b: Binding) {
    b.path in members && |members[b.path]| == b.length && tools.sha256(members[b.path]) == b.digest
  }

  predicate Bound(bindings: seq<Binding>, name: string) {
    exists i :: 0 <= i < |bindings| && bindings[i].path == name
  }

  predicate BindsAll(bindings: seq<Binding>) {
    forall name :: name in KIT_ONLY ==> Bound(bindings, name)
  }

  ghost predicate ExactMembers(members: Members) {
    members.Keys == RELEASE_SET + set name | name in KIT_ONLY
  }

  /** What acceptance means of the members. */
  ghost predicate Verified(tools: Tools, key: Key, members: Members) {
    && ExactMembers(members)
    && Signed(tools, key, members[RELEASE], members[SIGNATURE])
    && var release := tools.release(members[RELEASE]);
       && release.Some? && release.value.schema == Some(1)
       && release.value.sums == Some(tools.sha256(members[SUMS]))
       && var bindings := BindingsOf(release.value);
          && bindings.Some? && BindsAll(bindings.value)
          && forall i :: 0 <= i < |bindings.value| ==> Met(tools, members, bindings.value[i])
  }

  /** Why a readable kit is refused: names, then the signature, then the manifest
      and the sums, then the bindings. */
  ghost predicate KitFault(tools: Tools, key: Key, members: Members, error: KitError) {
    if NamesFault(members).Some? then NamesFault(members) == Some(error)
    else if !(RELEASE in members && SIGNATURE in members && SUMS in members) then false
    else if !Signed(tools, key, members[RELEASE], members[SIGNATURE]) then error == Signature
    else
      match tools.release(members[RELEASE])
      case None => error == Manifest
      case Some(release) =>
        if release.schema != Some(1) || release.sums.None? then error == Manifest
        else if release.sums != Some(tools.sha256(members[SUMS])) then error == SumsDisagree
        else if BindingsOf(release).None? then error == Manifest
        else BindingsFault(tools, members, BindingsOf(release).value, error)
  }

  /** A kit is accepted exactly when its archive is readable and its members
      are verified. */
  method VerifyKitZip(archive: seq<ZipEntry>, lower: string -> string, tools: Tools, key: Key)
    returns (r: Result<(string, Members), KitError>)
    ensures r.Ok? ==>
              && Readable(archive, lower) && Holds(r.value.1, archive) && Verified(tools, key, r.value.1)
              && tools.release(r.value.1[RELEASE]).value.version == r.value.0
    ensures r.Err? ==> !Readable(archive, lower) || forall members :: Holds(members, archive) ==> !Verified(tools, key, members)
    ensures r.Err? ==> FirstFault(archive, lower, r.error) || forall members :: Holds(members, archive) ==> KitFault(tools, key, members, r.error)
  {
    var zip := ReadZip(archive, lower);
    if zip.Err? {
      return Err(zip.error);
    }
    var members := zip.value;
    forall other | Holds(other, archive)
      ensures other == members
    {
      HoldsOne(members, other, archive);
    }
    var listed := CheckMembers(members);
    if listed.Some? {
      return Err(listed.value);
    }
    if !Signed(tools, key, members[RELEASE], members[SIGNATURE]) {
      return Err(Signature);
    }
    var release := tools.release(members[RELEASE]);
    if release.None? || release.value.schema != Some(1) || release.value.sums.None? {
      return Err(Manifest);
    }
    if tools.sha256(members[SUMS]) != release.value.sums.value {
      return Err(SumsDisagree);
    }
    var bindings := BindingsOf(release.value);
    if bindings.None? {
      return Err(Manifest);
    }
    var bound := CheckBindings(tools, members, bindings.value);
    if bound.Some? {
      return Err(bound.value);
    }
    return Ok((release.value.version, members));
  }

  lemma HoldsOne(members: Members, other: Members, archive: seq<ZipEntry>)
    requires Holds(members, archive) && Holds(other, archive)
    ensures members == other
  {
    forall name
      ensures name in members <==> name in other
      ensures name in members && name in other ==> members[name] == other[name]
    {
      if name in members || name in other {
        assert Named(archive, name);
        var i :| 0 <= i < |archive| && archive[i].name == Some(name);
        assert archive[i].name.value in members && archive[i].name.value in other;
      }
    }
  }

  const REQUIRED := [RELEASE, SIGNATURE, SUMS] + KIT_ONLY

  /** A required name that is missing comes before one that is not listed. */
  ghost function NamesFault(members: Members): Option<KitError> {
    if exists name :: name in REQUIRED && name !in members then Some(Missing)
    else if exists name :: name in members && name !in REQUIRED then Some(Unlisted)
    else None
  }

  /** Every required name is there, and no other. */
  method CheckMembers(members: Members) returns (error: Option<KitError>)
    ensures error.None? <==> ExactMembers(members)
    ensures error == NamesFault(members)
  {
    assert forall name :: name in REQUIRED <==> name in RELEASE_SET + set n | n in KIT_ONLY;
    for i := 0 to |REQUIRED|
      invariant forall name :: name in REQUIRED[..i] ==> name in members
    {
      if REQUIRED[i] !in members {
        assert REQUIRED[i] in REQUIRED;
        return Some(Missing);
      }
      assert REQUIRED[..i + 1] == REQUIRED[..i] + [REQUIRED[i]];
    }
    assert REQUIRED[..|REQUIRED|] == REQUIRED;
    var names := members.Keys;
    while names != {}
      invariant names <= members.Keys
      invariant forall name :: name in members && name !in names ==> name in REQUIRED
      decreases |names|
    {
      var name :| name in names;
      if name !in RELEASE_SET && name !in KIT_ONLY {
        assert name in members.Keys;
        return Some(Unlisted);
      }
      names := names - {name};
    }
    return None;
  }

  /** Why a binding is not met: in this order no such member, its length, its digest. */
  function BindingFault(tools: Tools, members: Members, b: Binding): Option<KitError> {
    if b.path !in members then Some(UnknownMember)
    else if |members[b.path]| != b.length then Some(WrongLength)
    else if tools.sha256(members[b.path]) != b.digest then Some(WrongDigest)
    else None
  }

  /** The first binding not met says why; a kit member left out is looked for last. */
  ghost predicate BindingsFault(tools: Tools, members: Members, bindings: seq<Binding>, error: KitError) {
    || (exists i :: 0 <= i < |bindings| && (forall j :: 0 <= j < i ==> Met(tools, members, bindings[j]))
          && BindingFault(tools, members, bindings[i]) == Some(error))
    || (error == Unbound && !BindsAll(bindings) && forall i :: 0 <= i < |bindings| ==> Met(tools, members, bindings[i]))
  }

  /** Every binding is met, and every kit member is bound. */
  method CheckBindings(tools: Tools, members: Members, bindings: seq<Binding>) returns (error: Option<KitError>)
    ensures error.None? <==> BindsAll(bindings) && forall i :: 0 <= i < |bindings| ==> Met(tools, members, bindings[i])
    ensures error.Some? ==> BindingsFault(tools, members, bindings, error.value)
  {
    for i := 0 to |bindings|
      invariant forall j :: 0 <= j < i ==> Met(tools, members, bindings[j])
    {
      var b := bindings[i];
      assert BindingFault(tools, members, b) == BindingFault(tools, members, bindings[i]);
      if b.path !in members {
        return Some(UnknownMember);
      }
      if |members[b.path]| != b.length {
        return Some(WrongLength);
      }
      if tools.sha256(members[b.path]) != b.digest {
        return Some(WrongDigest);
      }
    }
    for k := 0 to |KIT_ONLY|
      invariant forall name :: name in KIT_ONLY[..k] ==> Bound(bindings, name)
    {
      if !Bound(bindings, KIT_ONLY[k]) {
        assert KIT_ONLY[k] in KIT_ONLY;
        return Some(Unbound);
      }
      assert KIT_ONLY[..k + 1] == KIT_ONLY[..k] + [KIT_ONLY[k]];
    }
    assert KIT_ONLY[..|KIT_ONLY|] == KIT_ONLY;
    return None;
  }

  // ---------------------------------------------------------------- what acceptance buys

  /** Two accepted kits with the same manifest bytes carry the same files, save
      for the signature over that manifest. */
  lemma SameManifestSameFiles(tools: Tools, key: Key, other: Key, a: Members, b: Members, name: string)
    requires CollisionFree(tools.sha256) && Verified(tools, key, a) && Verified(tools, other, b) && a[RELEASE] == b[RELEASE]
    requires name in a && name != SIGNATURE
    ensures name in b && a[name] == b[name]
  {
    if name in KIT_ONLY {
      var bindings := BindingsOf(tools.release(a[RELEASE]).value).value;
      assert Bound(bindings, name);
      var i :| 0 <= i < |bindings| && bindings[i].path == name;
      assert Met(tools, a, bindings[i]) && Met(tools, b, bindings[i]);
    }
  }

  /** An accepted archive has seven entries, the seven files and nothing else:
      no name twice, no two that differ only by case. */
  lemma AcceptedArchiveIsExact(archive: seq<ZipEntry>, lower: string -> string, tools: Tools, key: Key, members: Members)
    requires Readable(archive, lower) && Holds(members, archive) && Verified(tools, key, members)
    ensures |archive| == 7
    ensures forall i :: 0 <= i < |archive| ==> archive[i].name.value in REQUIRED && archive[i].regular
    ensures forall name :: name in REQUIRED ==> Named(archive, name)
  {
    var names := seq(|archive|, i requires 0 <= i < |archive| => archive[i].name.value);
    forall i, j | 0 <= i < j < |names|
      ensures names[i] != names[j]
    {
      assert lower(archive[i].name.value) != lower(archive[j].name.value);
    }
    forall name
      ensures name in names <==> name in members
    {
      if name in members {
        assert Named(archive, name);
        var i :| 0 <= i < |archive| && archive[i].name == Some(name);
        assert names[i] == name;
      }
    }
    assert forall name :: name in REQUIRED <==> name in members;
    RequiredAreDistinct();
    DistinctNamesCount(names, members.Keys);
    DistinctNamesCount(REQUIRED, members.Keys);
  }

  lemma RequiredAreDistinct()
    ensures |REQUIRED| == 7
    ensures forall i, j :: 0 <= i < j < |REQUIRED| ==> REQUIRED[i] != REQUIRED[j]
  {
    assert |RELEASE| == 12 && |SIGNATURE| == 20 && |SUMS| == 10;
    assert |KIT_ONLY[0]| == 10 && |KIT_ONLY[1]| == 30 && |KIT_ONLY[2]| == 31 && |KIT_ONLY[3]| == 36;
    assert KIT_ONLY[0][0] == 'R' && SUMS[0] == 'S';
  }

  lemma {:induction false} DistinctNamesCount(names: seq<string>, keys: set<string>)
    requires forall i, j :: 0 <= i < j < |names| ==> names[i] != names[j]
    requires forall name :: name in names <==> name in keys
    ensures |names| == |keys|
  {
    if names == [] {
      assert keys == {};
    } else {
      var rest := names[..|names| - 1];
      assert names == rest + [names[|names| - 1]];
      DistinctNamesCount(rest, keys - {names[|names| - 1]});
    }
  }

  // ---------------------------------------------------------------- what was signed

  /** Under a key whose holder signed only the messages `said`, the manifest of
      an accepted kit is one of them, and its trusted comment was said with the
      signature over that manifest. */
  lemma AcceptedManifestWasSigned(tools: Tools, key: Key, members: Members, said: Bytes -> bool)
    requires Verified(tools, key, members)
    requires forall message, signature :: tools.verifies(key.key, message, signature) ==> said(message)
    ensures said(members[RELEASE])
    ensures var m := tools.minisig(members[SIGNATURE]);
            m.Some? && m.value.keyId == key.id && said(m.value.signature + m.value.comment)
  {
    var m := tools.minisig(members[SIGNATURE]).value;
    SignedMeans(tools, key, members[RELEASE], members[SIGNATURE]);
    var release, covered := members[RELEASE], m.signature + m.comment;
    assert tools.verifies(key.key, release, m.signature) && tools.verifies(key.key, covered, m.global);
    hide *;
    assert said(release) && said(covered);
  }

  lemma SignedMeans(tools: Tools, key: Key, release: Bytes, minisig: Bytes)
    requires Signed(tools, key, release, minisig)
    ensures var m := tools.minisig(minisig);
            && m.Some? && m.value.keyId == key.id
            && tools.verifies(key.key, release, m.value.signature)
            && tools.verifies(key.key, m.value.signature + m.value.comment, m.value.global)
  {
  }

  /** Where a message has one signature, a signature file is taken exactly when
      it names the key and carries that of the manifest, and that of the two
      together with its comment. */
  lemma SignedIff(tools: Tools, key: Key, sign: Bytes -> Bytes, release: Bytes, minisig: Bytes)
    requires forall message, signature :: tools.verifies(key.key, message, signature) <==> signature == sign(message)
    ensures Signed(tools, key, release, minisig) <==>
            exists comment ::
              tools.minisig(minisig) == Some(Minisig(key.id, sign(release), comment, sign(sign(release) + comment)))
  {
    if Signed(tools, key, release, minisig) {
      var m := tools.minisig(minisig).value;
      assert m == Minisig(key.id, sign(release), m.comment, sign(sign(release) + m.comment));
    }
  }

  /** A kit made as the release describes is accepted: a signed manifest of
      schema 1 that gives the digest of the sums and whose first kit artifact
      binds the length and digest of each kit file. */
  lemma GenuineKitIsAccepted(tools: Tools, key: Key, members: Members, version: string, before: seq<Artifact>, after: seq<Artifact>)
    requires ExactMembers(members) && Signed(tools, key, members[RELEASE], members[SIGNATURE])
    requires forall i :: 0 <= i < |before| ==> before[i].purpose != Some("client-kit")
    requires var raws := seq(|KIT_ONLY|, i requires 0 <= i < |KIT_ONLY| && KIT_ONLY[i] in members =>
               RawBinding(Some(KIT_ONLY[i]), Some(|members[KIT_ONLY[i]]|), Some(tools.sha256(members[KIT_ONLY[i]]))));
             tools.release(members[RELEASE]) ==
             Some(Release(Some(1), Some(tools.sha256(members[SUMS])),
                          Some(before + [Artifact(Some("client-kit"), Some(raws))] + after), version))
    ensures Verified(tools, key, members)
  {
    var release := tools.release(members[RELEASE]).value;
    var kit := release.artifacts.value[|before|];
    var raws := kit.bindings.value;
    FirstKit(before, kit, after);
    assert forall i :: 0 <= i < |raws| ==> Whole(raws[i]);
    var bindings := BindingsOf(release).value;
    forall name | name in KIT_ONLY
      ensures Bound(bindings, name)
    {
      var i :| 0 <= i < |KIT_ONLY| && KIT_ONLY[i] == name;
      assert bindings[i].path == name;
    }
  }

  lemma {:induction false} FirstKit(before: seq<Artifact>, kit: Artifact, after: seq<Artifact>)
    requires (forall i :: 0 <= i < |before| ==> before[i].purpose != Some("client-kit")) && kit.purpose == Some("client-kit")
    ensures ClientKit(before + [kit] + after) == Some(kit)
  {
    var all := before + [kit] + after;
    if before != [] {
      FirstKit(before[1..], kit, after);
      assert all[1..] == before[1..] + [kit] + after && all[0] == before[0];
    } else {
      assert all[0] == kit;
    }
  }

  // ---------------------------------------------------------------- paths

  /** The parts of a path between its slashes. */
  function Parts(path: string): (parts: seq<string>)
    ensures parts != []
  {
    if path == "" then [""]
    else if path[0] == '/' then [""] + Parts(path[1..])
    else
      var rest := Parts(path[1..]);
      [[path[0]] + rest[0]] + rest[1..]
  }

  lemma {:induction false} PartsStand(path: string, k: nat) returns (i: nat)
    requires k < |Parts(path)|
    ensures i + |Parts(path)[k]| <= |path| && path[i..i + |Parts(path)[k]|] == Parts(path)[k]
    decreases |path|
  {
    if path == "" {
      i := 0;
    } else if path[0] == '/' {
      if k == 0 {
        i := 0;
      } else {
        i := PartsStand(path[1..], k - 1);
        i := i + 1;
      }
    } else if k == 0 {
      FirstPartLeads(path);
      i := 0;
    } else {
      i := PartsStand(path[1..], k);
      i := i + 1;
    }
  }

  lemma {:induction false} FirstPartLeads(path: string)
    ensures Parts(path)[0] <= path
    decreases |path|
  {
    if path != "" && path[0] != '/' {
      FirstPartLeads(path[1..]);
      assert path == [path[0]] + path[1..];
    }
  }

  lemma ClimbIsSeen(name: string, k: nat)
    requires k < |Parts(name)|
    ensures Parts(name)[k] == ".." ==> HasDotDot(name)
  {
    var i := PartsStand(name, k);
    hide Parts;
    if Parts(name)[k] == ".." {
      assert name[i..i + 2][0] == '.' && name[i..i + 2][1] == '.';
    }
  }

  /** A path that is taken leads nowhere outside: it is not absolute, no part of
      it climbs, and no backslash stands for a slash. */
  lemma RelativeStaysInside(name: string, k: nat)
    requires Relative(name) && k < |Parts(name)|
    ensures (name == "" || name[0] != '/') && '\\' !in name && Parts(name)[k] != ".."
  {
    ClimbIsSeen(name, k);
    hide HasDotDot, Parts;
  }

  lemma NoDotNoClimb(name: string)
    requires '.' !in name
    ensures !HasDotDot(name)
  {
    forall i | 0 <= i < |name| - 1
      ensures name[i] != '.'
    {
      assert name[i] in name;
    }
  }

  /** One dot more, between parts that do not touch it with another. */
  lemma OneDotMore(first: string, second: string)
    requires !HasDotDot(first) && first != "" && first[|first| - 1] != '.' && '.' !in second
    ensures !HasDotDot(first + "." + second)
  {
    var name := first + "." + second;
    forall i | 0 <= i < |name| - 1
      ensures !(name[i] == '.' && name[i + 1] == '.')
    {
      if i + 1 < |first| {
        assert name[i] == first[i] && name[i + 1] == first[i + 1];
      } else if i + 1 > |first| {
        assert name[i + 1] == second[i - |first|] && second[i - |first|] in second;
      }
    }
  }

  lemma RelativeWithoutDots(name: string)
    requires '.' !in name && '\\' !in name && (name == "" || name[0] != '/')
    ensures Relative(name)
  {
    NoDotNoClimb(name);
  }

  lemma RelativeWithADot(first: string, second: string)
    requires Relative(first) && first != "" && first[|first| - 1] != '.' && '.' !in second && '\\' !in second
    ensures Relative(first + "." + second)
  {
    OneDotMore(first, second);
    hide HasDotDot;
    assert (first + "." + second)[0] == first[0];
  }

  lemma ReleaseNamesAreRelative()
    ensures Relative(RELEASE) && Relative(SIGNATURE) && Relative(SUMS)
  {
    hide Relative;
    RelativeWithoutDots("release");
    RelativeWithADot("release", "json");
    assert "release" + "." + "json" == RELEASE;
    assert RELEASE[|RELEASE| - 1] == 'n';
    RelativeWithADot(RELEASE, "minisig");
    assert RELEASE + "." + "minisig" == SIGNATURE;
    RelativeWithoutDots(SUMS);
  }

  lemma ReadmeIsRelative()
    ensures Relative(KIT_ONLY[0])
  {
    hide Relative;
    RelativeWithoutDots("README");
    RelativeWithADot("README", "txt");
    assert "README" + "." + "txt" == KIT_ONLY[0];
  }

  lemma PayloadsAreRelative()
    ensures Relative(KIT_ONLY[1]) && Relative(KIT_ONLY[2])
  {
    hide Relative;
    RelativeWithoutDots("payload/macos-x86_64/jaynshare");
    RelativeWithoutDots("payload/macos-aarch64/jaynshare");
  }

  lemma WindowsPayloadIsRelative()
    ensures Relative(KIT_ONLY[3])
  {
    hide Relative;
    RelativeWithoutDots("payload/windows-x86_64/jaynshare");
    RelativeWithADot("payload/windows-x86_64/jaynshare", "exe");
    assert "payload/windows-x86_64/jaynshare" + "." + "exe" == KIT_ONLY[3];
  }

  /** And the seven names of a kit are taken. */
  lemma RequiredAreRelative(k: nat)
    requires k < |REQUIRED|
    ensures Relative(REQUIRED[k])
  {
    ReleaseNamesAreRelative();
    ReadmeIsRelative();
    PayloadsAreRelative();
    WindowsPayloadIsRelative();
    hide Relative;
    if k >= 3 {
      assert REQUIRED[k] == KIT_ONLY[k - 3];
    }
  }
}
