/**
 The encrypted vault and the archive on top of it (app/services/vault.py,
 app/services/archive.py, app/services/storage.py).  The cipher is a parameter;
 what a result needs of it is stated where it is used.
 */
module Vault {
  import opened Enums
  import opened Bytes

  /** Authenticated encryption: key, nonce, text, associated data. */
  datatype Aead = Aead(
    encrypt: (Bytes, Bytes, Bytes, Bytes) -> Bytes,
    decrypt: (Bytes, Bytes, Bytes, Bytes) -> Option<Bytes>)

  /** Decryption undoes encryption, and a ciphertext is its plaintext plus a 16-byte tag. */
  ghost predicate Correct(aead: Aead) {
    && (forall key, nonce, data, aad ::
          aead.decrypt(key, nonce, aead.encrypt(key, nonce, data, aad), aad) == Some(data))
    && (forall key, nonce, data, aad :: |aead.encrypt(key, nonce, data, aad)| == |data| + TAG_LENGTH)
    && (forall key, nonce, text, aad ::
          aead.decrypt(key, nonce, text, aad).Some? ==> |aead.decrypt(key, nonce, text, aad).value| + TAG_LENGTH == |text|)
  }

  /** Authenticity of one ciphertext: no other associated data is accepted with it. */
  ghost predicate BoundTo(aead: Aead, text: Bytes, aad: Bytes) {
    forall key, nonce, other :: other != aad ==> aead.decrypt(key, nonce, text, other).None?
  }

  /** The deployment's cipher and its key derivation per tenant and version. */
  datatype Keys = Keys(aead: Aead, dataKey: (Bytes, nat) -> Bytes)

  const TAG_LENGTH := 16
  const NONCE_LENGTH := 12
  const HEADER_LENGTH := 12
  const FORMAT_VERSION: Byte := 1
  /** The ASCII bytes of EKYCENC. */
  const MAGIC: Bytes := [69, 75, 89, 67, 69, 78, 67]

  /** Tag, format and a four-byte version; `None` when the version does not fit. */
  function Header(keyVersion: nat): (h: Option<Bytes>)
    ensures h.Some? <==> keyVersion < 0x1_0000_0000
    ensures h.Some? ==> |h.value| == HEADER_LENGTH
  {
    assert Pow256(4) == 0x1_0000_0000 by {
      FourBytes();
    }
    if keyVersion < 0x1_0000_0000 then Some(MAGIC + [FORMAT_VERSION] + ToBytes(keyVersion, 4)) else None
  }

  lemma FourBytes()
    ensures Pow256(4) == 0x1_0000_0000
  {
    assert Pow256(1) == 256 && Pow256(2) == 65536 && Pow256(3) == 16777216;
  }

  predicate IsSealed(blob: Bytes) {
    MAGIC <= blob
  }

  function Seal(keys: Keys, tenant: Bytes, keyVersion: nat, nonce: Bytes, data: Bytes): Option<Bytes>
    requires |nonce| == NONCE_LENGTH
  {
    match Header(keyVersion)
    case None => None
    case Some(header) =>
      Some(header + nonce + keys.aead.encrypt(keys.dataKey(tenant, keyVersion), nonce, data, header + tenant))
  }

  datatype Opening = Opened(data: Bytes) | Truncated | UnsupportedFormat | AuthenticationFailed

  /** Reads the version from the blob itself: the current version of the deployment plays no part. */
  function Open(keys: Keys, tenant: Bytes, blob: Bytes): Opening {
    if !IsSealed(blob) then Opened(blob)
    else if |blob| < HEADER_LENGTH + NONCE_LENGTH + TAG_LENGTH then Truncated
    else if blob[|MAGIC|] != FORMAT_VERSION then UnsupportedFormat
    else
      var keyVersion := FromBytes(blob[|MAGIC| + 1..HEADER_LENGTH]);
      var header := blob[..HEADER_LENGTH];
      var nonce := blob[HEADER_LENGTH..HEADER_LENGTH + NONCE_LENGTH];
      var text := blob[HEADER_LENGTH + NONCE_LENGTH..];
      match keys.aead.decrypt(keys.dataKey(tenant, keyVersion), nonce, text, header + tenant)
      case None => AuthenticationFailed
      case Some(data) => Opened(data)
  }

  /** The parts `Open` cuts out of a sealed blob are the parts `Seal` put together. */
  lemma SealedParts(keyVersion: nat, nonce: Bytes, text: Bytes)
    requires keyVersion < 0x1_0000_0000 && |nonce| == NONCE_LENGTH
    ensures var header := Header(keyVersion).value;
            var blob := header + nonce + text;
            && IsSealed(blob)
            && blob[|MAGIC|] == FORMAT_VERSION
            && blob[..HEADER_LENGTH] == header
            && FromBytes(blob[|MAGIC| + 1..HEADER_LENGTH]) == keyVersion
            && blob[HEADER_LENGTH..HEADER_LENGTH + NONCE_LENGTH] == nonce
            && blob[HEADER_LENGTH + NONCE_LENGTH..] == text
  {
    FourBytes();
    var header := Header(keyVersion).value;
    var blob := header + nonce + text;
    BytesRoundTrip(keyVersion, 4);
    assert blob[|MAGIC| + 1..HEADER_LENGTH] == ToBytes(keyVersion, 4);
  }

  /** Opening undoes sealing for the same tenant, whatever version and nonce were used. */
  lemma OpenUndoesSeal(keys: Keys, tenant: Bytes, keyVersion: nat, nonce: Bytes, data: Bytes)
    requires Correct(keys.aead) && |nonce| == NONCE_LENGTH
    requires Seal(keys, tenant, keyVersion, nonce, data).Some?
    ensures Open(keys, tenant, Seal(keys, tenant, keyVersion, nonce, data).value) == Opened(data)
  {
    var header := Header(keyVersion).value;
    SealedParts(keyVersion, nonce,
                keys.aead.encrypt(keys.dataKey(tenant, keyVersion), nonce, data, header + tenant));
  }

  /** A sealed blob opens for its own tenant and no other, even if their keys were equal. */
  lemma OnlyOwnerOpens(keys: Keys, owner: Bytes, reader: Bytes, keyVersion: nat, nonce: Bytes, data: Bytes)
    requires Correct(keys.aead) && |nonce| == NONCE_LENGTH && keyVersion < 0x1_0000_0000
    requires var header := Header(keyVersion).value;
             BoundTo(keys.aead,
                     keys.aead.encrypt(keys.dataKey(owner, keyVersion), nonce, data, header + owner),
                     header + owner)
    ensures var blob := Seal(keys, owner, keyVersion, nonce, data).value;
            && (Open(keys, reader, blob).Opened? <==> reader == owner)
            && (reader != owner ==> Open(keys, reader, blob) == AuthenticationFailed)
  {
    var header := Header(keyVersion).value;
    var text := keys.aead.encrypt(keys.dataKey(owner, keyVersion), nonce, data, header + owner);
    SealedParts(keyVersion, nonce, text);
    if reader != owner {
      assert (header + reader)[HEADER_LENGTH..] == reader && (header + owner)[HEADER_LENGTH..] == owner;
    }
  }

  /** Bytes stored as they are open to themselves exactly when they do not carry the marker. */
  lemma PlainOpensExactly(keys: Keys, tenant: Bytes, data: Bytes)
    requires Correct(keys.aead)
    ensures Open(keys, tenant, data) == Opened(data) <==> !IsSealed(data)
  {
  }

  // ---- The archive ----------------------------------------------------------

  datatype Location = Location(vault: string, key: string)

  datatype Artifact = Artifact(tenant: Bytes, location: Location, size: nat)

  datatype Reading = NoBlob | Read(opening: Opening)

  function ReadFrom(keys: Keys, blobs: map<Location, Bytes>, artifact: Artifact): Reading {
    if artifact.location !in blobs then NoBlob
    else Read(Open(keys, artifact.tenant, blobs[artifact.location]))
  }

  class Archive {
    const keys: Keys
    const encryption: bool
    var blobs: map<Location, Bytes>

    constructor (keys: Keys, encryption: bool)
      ensures this.keys == keys && this.encryption == encryption && blobs == map[]
    {
      this.keys := keys;
      this.encryption := encryption;
      blobs := map[];
    }

    /** `None` is the error of a key version that does not fit the header; nothing is written then. */
    method StoreArtifact(tenant: Bytes, location: Location, keyVersion: nat, nonce: Bytes, data: Bytes)
      returns (artifact: Option<Artifact>)
      requires |nonce| == NONCE_LENGTH
      modifies this
      ensures artifact.Some? <==> !encryption || keyVersion < 0x1_0000_0000
      ensures artifact.Some? ==> artifact.value == Artifact(tenant, location, |data|)
      ensures forall other :: other != location ==>
                                (other in blobs <==> other in old(blobs))
                                && (other in blobs ==> blobs[other] == old(blobs)[other])
      ensures artifact.None? ==> blobs == old(blobs)
      ensures artifact.Some? && Correct(keys.aead) ==>
                (ReadFrom(keys, blobs, artifact.value) == Read(Opened(data)) <==> encryption || !IsSealed(data))
    {
      var payload := data;
      if encryption {
        var blob := Seal(keys, tenant, keyVersion, nonce, data);
        if blob.None? {
          return None;
        }
        if Correct(keys.aead) {
          OpenUndoesSeal(keys, tenant, keyVersion, nonce, data);
        }
        payload := blob.value;
      } else if Correct(keys.aead) {
        PlainOpensExactly(keys, tenant, data);
      }
      blobs := blobs[location := payload];
      return Some(Artifact(tenant, location, |data|));
    }

    method Delete(location: Location) returns (removed: bool)
      modifies this
      ensures removed <==> location in old(blobs)
      ensures blobs == old(blobs) - {location}
    {
      removed := location in blobs;
      blobs := blobs - {location};
    }
  }

  /** Later traffic of the object store. */
  datatype StoreOp = Put(location: Location, blob: Bytes) | Remove(location: Location)

  function AfterOps(blobs: map<Location, Bytes>, ops: seq<StoreOp>): map<Location, Bytes> {
    if ops == [] then blobs
    else
      var before := AfterOps(blobs, ops[..|ops| - 1]);
      match ops[|ops| - 1]
      case Put(location, blob) => before[location := blob]
      case Remove(location) => before - {location}
  }

  function LastAt(ops: seq<StoreOp>, location: Location): Option<StoreOp> {
    if ops == [] then None
    else if ops[|ops| - 1].location == location then Some(ops[|ops| - 1])
    else LastAt(ops[..|ops| - 1], location)
  }

  /**
   An artifact keeps reading the same until its own vault and key are written or
   deleted again; then it reads what that last operation left, whoever stored it.
   */
  lemma {:induction false} ArtifactFollowsItsLocation(
    keys: Keys, blobs: map<Location, Bytes>, ops: seq<StoreOp>, artifact: Artifact)
    ensures ReadFrom(keys, AfterOps(blobs, ops), artifact) ==
            match LastAt(ops, artifact.location)
            case None => ReadFrom(keys, blobs, artifact)
            case Some(Remove(_)) => NoBlob
            case Some(Put(_, blob)) => Read(Open(keys, artifact.tenant, blob))
  {
    if ops != [] {
      ArtifactFollowsItsLocation(keys, blobs, ops[..|ops| - 1], artifact);
    }
  }

  // ---- Keys -----------------------------------------------------------------

  /** What a blob's place is built from; `day` is `YYYY/MM/DD`. */
  datatype Upload = Upload(
    vault: Option<string>, tenant: string, day: string, session: string, kind: string, filename: string)

  function LowerChar(c: char): char {
    if 'A' <= c <= 'Z' then (c as int + 32) as char else c
  }

  function Lower(s: string): string {
    if s == "" then "" else [LowerChar(s[0])] + Lower(s[1..])
  }

  /** `build_key`. */
  function BuildKey(u: Upload): string {
    "tenant/" + (u.tenant + "/" + (u.day + "/" + (u.session + "/" + (Lower(u.kind) + "/" + u.filename))))
  }

  function VaultName(profile: Option<string>): string {
    if profile.None? || profile.value == "" then "default" else profile.value
  }

  function LocationOf(u: Upload): Location {
    Location(VaultName(u.vault), BuildKey(u))
  }

  /** Identifiers and kinds of the platform hold no slash, and a day has ten characters; a filename may hold anything. */
  predicate PlainParts(u: Upload) {
    '/' !in u.tenant && '/' !in u.session && '/' !in u.kind && |u.day| == 10
  }

  lemma {:induction false} LowerKeepsSlashFree(s: string)
    requires '/' !in s
    ensures '/' !in Lower(s)
  {
    if s != "" {
      assert s[0] in s;
      assert forall c :: c in s[1..] ==> c in s;
      LowerKeepsSlashFree(s[1..]);
    }
  }

  function SlashAt(s: string): nat {
    if s == "" || s[0] == '/' then 0 else 1 + SlashAt(s[1..])
  }

  lemma {:induction false} SlashAfter(a: string, b: string)
    requires '/' !in a
    ensures SlashAt(a + "/" + b) == |a|
  {
    if a != "" {
      assert a[0] in a && forall c :: c in a[1..] ==> c in a;
      SlashAfter(a[1..], b);
      assert (a + "/" + b)[1..] == a[1..] + "/" + b;
    }
  }

  /** The part before the first slash, and the rest, can be read off the joined string. */
  lemma FirstSlashSplits(a: string, b: string, c: string, d: string)
    requires '/' !in a && '/' !in c
    requires a + "/" + b == c + "/" + d
    ensures a == c && b == d
  {
    var x, y := a + "/" + b, c + "/" + d;
    SlashAfter(a, b);
    SlashAfter(c, d);
    assert a == x[..|a|] && c == y[..|c|] && b == x[|a| + 1..] && d == y[|c| + 1..];
  }

  lemma FixedLengthSplits(a: string, b: string, c: string, d: string)
    requires |a| == |c| && a + b == c + d
    ensures a == c && b == d
  {
    assert a == (a + b)[..|a|] && c == (c + d)[..|c|] && b == (a + b)[|a|..] && d == (c + d)[|c|..];
  }

  /** Two uploads share a blob exactly when vault, tenant, day, session, kind up to case, and filename agree. */
  lemma SharesLocationExactly(u: Upload, v: Upload)
    requires PlainParts(u) && PlainParts(v)
    ensures LocationOf(u) == LocationOf(v) <==>
            && VaultName(u.vault) == VaultName(v.vault)
            && u.tenant == v.tenant && u.day == v.day && u.session == v.session
            && Lower(u.kind) == Lower(v.kind) && u.filename == v.filename
  {
    if BuildKey(u) == BuildKey(v) {
      var u4, v4 := Lower(u.kind) + "/" + u.filename, Lower(v.kind) + "/" + v.filename;
      var u3, v3 := u.session + "/" + u4, v.session + "/" + v4;
      var u2, v2 := u.day + "/" + u3, v.day + "/" + v3;
      FixedLengthSplits("tenant/", u.tenant + "/" + u2, "tenant/", v.tenant + "/" + v2);
      FirstSlashSplits(u.tenant, u2, v.tenant, v2);
      assert u2 == u.day + ("/" + u3) && v2 == v.day + ("/" + v3);
      FixedLengthSplits(u.day, "/" + u3, v.day, "/" + v3);
      FixedLengthSplits("/", u3, "/", v3);
      FirstSlashSplits(u.session, u4, v.session, v4);
      LowerKeepsSlashFree(u.kind);
      LowerKeepsSlashFree(v.kind);
      FirstSlashSplits(Lower(u.kind), u.filename, Lower(v.kind), v.filename);
    }
  }

  /** Two uploads that share a key: the first artifact then reads the second upload. */
  lemma {:induction false} SameKeyReplaces(
    keys: Keys, blobs: map<Location, Bytes>, artifact: Artifact, keyVersion: nat, nonce: Bytes, second: Bytes)
    requires Correct(keys.aead) && |nonce| == NONCE_LENGTH
    requires Seal(keys, artifact.tenant, keyVersion, nonce, second).Some?
    ensures var blob := Seal(keys, artifact.tenant, keyVersion, nonce, second).value;
            ReadFrom(keys, AfterOps(blobs, [Put(artifact.location, blob)]), artifact) == Read(Opened(second))
  {
    var blob := Seal(keys, artifact.tenant, keyVersion, nonce, second).value;
    ArtifactFollowsItsLocation(keys, blobs, [Put(artifact.location, blob)], artifact);
    OpenUndoesSeal(keys, artifact.tenant, keyVersion, nonce, second);
  }
}
