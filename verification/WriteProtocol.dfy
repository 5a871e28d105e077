/**
Identities and metadata codecs of the multi-writer append protocol
(crates/teodb-core/src/write_protocol.rs, crates/teodb-catalog/src/adapter/commit_metadata.rs).

UUIDs are opaque numbers with a nil element. Property names that the protocol
interprets are constructors; JSON and UUID text are taken as faithful encodings,
so a stored value is represented by what it decodes to, plus its length.
*/
module WriteProtocol {
  import opened Wrappers

  type Uuid = nat
  const NIL: Uuid := 0

  const PROTOCOL_VERSION := 1
  const MAX_CHECKPOINT_VALUE_BYTES := 4096
  // The longest JSON text of a checkpoint whose numbers fit u64 and i64.
  const CHECKPOINT_JSON_BYTES := 165

  /* ---------- Append identities ---------- */

  datatype GenerationRange = GenerationRange(lo: nat, hi: nat)

  datatype Identity = Identity(writer: Uuid, epoch: nat, commit: Uuid, gens: GenerationRange)

  datatype IdentityFault = NilTable | NilWriter | ZeroEpoch | NilCommit | BadRange

  /** The first defect of an append identity, in the order the source looks. */
  function IdentityDefect(tableUuid: Uuid, id: Identity): (r: Option<IdentityFault>)
    ensures r.None? <==>
            tableUuid != NIL && id.writer != NIL && id.epoch > 0 && id.commit != NIL && 1 <= id.gens.lo <= id.gens.hi
  {
    if tableUuid == NIL then Some(NilTable)
    else if id.writer == NIL then Some(NilWriter)
    else if id.epoch == 0 then Some(ZeroEpoch)
    else if id.commit == NIL then Some(NilCommit)
    else if id.gens.lo == 0 || id.gens.lo > id.gens.hi then Some(BadRange)
    else None
  }

  ghost predicate ValidIdentity(tableUuid: Uuid, id: Identity) {
    IdentityDefect(tableUuid, id).None?
  }

  predicate Contains(range: GenerationRange, g: nat) {
    range.lo <= g <= range.hi
  }

  /* ---------- Snapshot summaries ---------- */

  datatype SummaryKey =
    | CommitIdKey | WriterIdKey | WriterEpochKey | GenerationMinKey | GenerationMaxKey
    | TableUuidKey | ProtocolVersionKey
    | EngineNameKey | EngineVersionKey
    | TeodbKey(name: string)   // any other name under the "teodb." prefix
    | UserKey(name: string)

  datatype SummaryValue = IdText(id: Uuid) | NumberText(n: nat) | Text(text: string)

  type Summary = map<SummaryKey, SummaryValue>

  /** The seven properties that spell an append identity in a snapshot summary. */
  function IdentityProperties(tableUuid: Uuid, id: Identity): (s: seq<(SummaryKey, SummaryValue)>)
    ensures |s| == 7 && s[0] == (CommitIdKey, IdText(id.commit))
  {
    [ (CommitIdKey, IdText(id.commit)),
      (WriterIdKey, IdText(id.writer)),
      (WriterEpochKey, NumberText(id.epoch)),
      (GenerationMinKey, NumberText(id.gens.lo)),
      (GenerationMaxKey, NumberText(id.gens.hi)),
      (TableUuidKey, IdText(tableUuid)),
      (ProtocolVersionKey, NumberText(PROTOCOL_VERSION)) ]
  }

  predicate Has(summary: Summary, p: (SummaryKey, SummaryValue)) {
    p.0 in summary && summary[p.0] == p.1
  }

  ghost predicate CarriesCommit(summary: Summary, commit: Uuid) {
    Has(summary, (CommitIdKey, IdText(commit)))
  }

  ghost predicate CarriesIdentity(summary: Summary, tableUuid: Uuid, id: Identity) {
    forall p | p in IdentityProperties(tableUuid, id) :: Has(summary, p)
  }

  /** Two identities spelled by one summary are one identity. */
  lemma SummarySpellsOneIdentity(summary: Summary, u: Uuid, u': Uuid, id: Identity, id': Identity)
    requires CarriesIdentity(summary, u, id) && CarriesIdentity(summary, u', id')
    ensures u == u' && id == id'
  {
    var a, b := IdentityProperties(u, id), IdentityProperties(u', id');
    assert forall k | 0 <= k < 7 :: a[k] in a && b[k] in b;
    assert forall k | 0 <= k < 7 :: Has(summary, a[k]) && Has(summary, b[k]);
    assert a[1].0 == b[1].0 && a[2].0 == b[2].0 && a[3].0 == b[3].0 && a[4].0 == b[4].0 && a[5].0 == b[5].0;
  }

  /** Property `k` is the first that the summary does not have, and `key` names it. */
  ghost predicate FirstMismatch(
      summary: Summary, properties: seq<(SummaryKey, SummaryValue)>, k: int, key: SummaryKey)
  {
    && 0 <= k < |properties| && !Has(summary, properties[k]) && properties[k].0 == key
    && forall j | 0 <= j < k :: Has(summary, properties[j])
  }

  /** `snapshot_matches_append_identity`: another commit ID is an ordinary
      non-match; the same commit ID with any other differing component is corruption. */
  method SnapshotMatches(tableUuid: Uuid, id: Identity, summary: Summary) returns (r: Result<bool, SummaryKey>)
    ensures r == Success(true) <==> CarriesIdentity(summary, tableUuid, id)
    ensures r == Success(false) <==> !CarriesCommit(summary, id.commit)
    ensures r.Failure? <==> CarriesCommit(summary, id.commit) && !CarriesIdentity(summary, tableUuid, id)
    ensures r.Failure? ==> exists k :: FirstMismatch(summary, IdentityProperties(tableUuid, id), k, r.error)
  {
    var properties := IdentityProperties(tableUuid, id);
    assert properties[0] in properties;
    if !Has(summary, properties[0]) {
      return Success(false);
    }
    for i := 0 to |properties|
      invariant forall k | 0 <= k < i :: Has(summary, properties[k])
    {
      if !Has(summary, properties[i]) {
        assert properties[i] in properties;
        assert FirstMismatch(summary, properties, i, properties[i].0);
        return Failure(properties[i].0);
      }
    }
    return Success(true);
  }

  /* ---------- Writer checkpoints ---------- */

  datatype WriterCheckpoint = WriterCheckpoint(
    version: nat, epoch: nat, generation: nat, commit: Uuid, committedAtMs: int)

  // The text after the checkpoint prefix: a canonical UUID, another spelling of
  // one, or something that does not parse.
  datatype KeySuffix = Canonical(writer: Uuid) | Alias(writer: Uuid) | Unparseable(text: string)

  datatype PropertyKey = CheckpointKey(suffix: KeySuffix) | PlainKey(name: string)

  // A property value: its length in bytes and the checkpoint it parses to, if any.
  datatype PropertyValue = PropertyValue(bytes: nat, parsed: Option<WriterCheckpoint>)

  type Properties = map<PropertyKey, PropertyValue>

  datatype CheckpointFault =
    | Oversized | Malformed | UnsupportedVersion | EpochIsZero | GenerationIsZero | CommitIsNil | NegativeTime
    | BadKey

  function Encode(cp: WriterCheckpoint): PropertyValue {
    PropertyValue(CHECKPOINT_JSON_BYTES, Some(cp))
  }

  /** `WriterCheckpoint::decode`: size, syntax, then meaning. */
  function Decode(value: PropertyValue): (r: Result<WriterCheckpoint, CheckpointFault>)
    ensures r.Success? <==>
            && value.bytes <= MAX_CHECKPOINT_VALUE_BYTES && value.parsed.Some?
            && ValidCheckpoint(value.parsed.value)
    ensures r.Success? ==> value.parsed == Some(r.value)
  {
    if value.bytes > MAX_CHECKPOINT_VALUE_BYTES then Failure(Oversized)
    else if value.parsed.None? then Failure(Malformed)
    else
      var cp := value.parsed.value;
      if cp.version != PROTOCOL_VERSION then Failure(UnsupportedVersion)
      else if cp.epoch == 0 then Failure(EpochIsZero)
      else if cp.generation == 0 then Failure(GenerationIsZero)
      else if cp.commit == NIL then Failure(CommitIsNil)
      else if cp.committedAtMs < 0 then Failure(NegativeTime)
      else Success(cp)
  }

  predicate ValidCheckpoint(cp: WriterCheckpoint) {
    cp.version == PROTOCOL_VERSION && cp.epoch > 0 && cp.generation > 0 && cp.commit != NIL && cp.committedAtMs >= 0
  }

  function OwnKey(writer: Uuid): PropertyKey {
    CheckpointKey(Canonical(writer))
  }

  /** `parse_writer_checkpoint`: the writer's own entry, decoded. */
  function ParseCheckpoint(properties: Properties, writer: Uuid): Result<Option<WriterCheckpoint>, CheckpointFault> {
    if OwnKey(writer) !in properties then Success(None)
    else
      match Decode(properties[OwnKey(writer)])
      case Success(cp) => Success(Some(cp))
      case Failure(f) => Failure(f)
  }

  function CheckpointKeys(properties: Properties): set<PropertyKey> {
    set k | k in properties && k.CheckpointKey?
  }

  predicate EntryWellFormed(key: PropertyKey, value: PropertyValue) {
    key.CheckpointKey? ==> key.suffix.Canonical? && key.suffix.writer != NIL && Decode(value).Success?
  }

  ghost predicate RegistryWellFormed(properties: Properties) {
    forall k | k in properties :: EntryWellFormed(k, properties[k])
  }

  /** `validate_writer_checkpoints`: every entry is checked, foreign writers'
      entries included, and the entries are counted. */
  method ValidateWriterCheckpoints(properties: Properties) returns (r: Result<nat, CheckpointFault>)
    ensures r.Success? <==> RegistryWellFormed(properties)
    ensures r.Success? ==> r.value == |CheckpointKeys(properties)|
  {
    var count := 0;
    var rest := CheckpointKeys(properties);
    while rest != {}
      invariant rest <= CheckpointKeys(properties)
      invariant count + |rest| == |CheckpointKeys(properties)|
      invariant forall k | k in CheckpointKeys(properties) && k !in rest :: EntryWellFormed(k, properties[k])
      decreases |rest|
    {
      var key :| key in rest;
      rest := rest - {key};
      count := count + 1;
      if !key.suffix.Canonical? || key.suffix.writer == NIL {
        assert !EntryWellFormed(key, properties[key]);
        return Failure(BadKey);
      }
      var decoded := Decode(properties[key]);
      if decoded.Failure? {
        assert !EntryWellFormed(key, properties[key]);
        return Failure(decoded.error);
      }
    }
    assert forall k | k in properties && k.CheckpointKey? :: k in CheckpointKeys(properties);
    return Success(count);
  }

  /* ---------- Append requests ---------- */

  datatype CommitAppend = CommitAppend(tableUuid: Uuid, identity: Identity, properties: Summary)

  predicate Reserved(key: SummaryKey) {
    !key.UserKey?
  }

  ghost predicate Publishable(req: CommitAppend) {
    forall k | k in req.properties :: !Reserved(k)
  }

  /** The summary an append publishes: the caller's properties plus the identity
      and the engine tags. */
  function AppendSummary(req: CommitAppend, engineVersion: string): Summary {
    req.properties + IdentityMap(req.tableUuid, req.identity)
      + map[EngineNameKey := Text("teodb"), EngineVersionKey := Text(engineVersion)]
  }

  function IdentityMap(tableUuid: Uuid, id: Identity): Summary {
    map[CommitIdKey := IdText(id.commit),
        WriterIdKey := IdText(id.writer),
        WriterEpochKey := NumberText(id.epoch),
        GenerationMinKey := NumberText(id.gens.lo),
        GenerationMaxKey := NumberText(id.gens.hi),
        TableUuidKey := IdText(tableUuid),
        ProtocolVersionKey := NumberText(PROTOCOL_VERSION)]
  }

  /** `snapshot_properties`: a reserved name is refused, never overridden. */
  method SnapshotProperties(req: CommitAppend, engineVersion: string) returns (r: Result<Summary, SummaryKey>)
    ensures r.Success? <==> Publishable(req)
    ensures r.Success? ==> r.value == AppendSummary(req, engineVersion)
    ensures r.Failure? ==> r.error in req.properties && Reserved(r.error)
  {
    var keys := req.properties.Keys;
    while keys != {}
      invariant keys <= req.properties.Keys
      invariant forall k | k in req.properties && k !in keys :: !Reserved(k)
      decreases |keys|
    {
      var key :| key in keys;
      if Reserved(key) {
        return Failure(key);
      }
      keys := keys - {key};
    }
    var properties := req.properties;
    properties := properties + IdentityMap(req.tableUuid, req.identity);
    properties := properties + map[EngineNameKey := Text("teodb"), EngineVersionKey := Text(engineVersion)];
    return Success(properties);
  }

  /** A published summary spells an identity exactly when it is the request's, whatever
      properties the caller gave. */
  lemma PublishedSummaryCarriesIdentity(req: CommitAppend, engineVersion: string)
    ensures CarriesIdentity(AppendSummary(req, engineVersion), req.tableUuid, req.identity)
    ensures forall u, id :: CarriesIdentity(AppendSummary(req, engineVersion), u, id)
                            ==> u == req.tableUuid && id == req.identity
  {
    PublishedSummaryHasIdentity(req, engineVersion);
    forall u, id | CarriesIdentity(AppendSummary(req, engineVersion), u, id)
      ensures u == req.tableUuid && id == req.identity
    {
      SummarySpellsOneIdentity(AppendSummary(req, engineVersion), u, req.tableUuid, id, req.identity);
    }
  }

  lemma PublishedSummaryHasIdentity(req: CommitAppend, engineVersion: string)
    ensures CarriesIdentity(AppendSummary(req, engineVersion), req.tableUuid, req.identity)
  {
    var s := AppendSummary(req, engineVersion);
    var properties := IdentityProperties(req.tableUuid, req.identity);
    assert Has(s, properties[0]) && Has(s, properties[1]) && Has(s, properties[2]) && Has(s, properties[3]);
    assert Has(s, properties[4]) && Has(s, properties[5]) && Has(s, properties[6]);
  }

  /** What an append writes is what the match looks for: the published summary
      spells exactly the request's identity, and no caller property is lost. */
  lemma PublishedSummaryRoundTrip(req: CommitAppend, engineVersion: string)
    requires Publishable(req)
    ensures CarriesIdentity(AppendSummary(req, engineVersion), req.tableUuid, req.identity)
    ensures forall c :: CarriesCommit(AppendSummary(req, engineVersion), c) ==> c == req.identity.commit
    ensures forall u, id :: CarriesIdentity(AppendSummary(req, engineVersion), u, id)
                            ==> u == req.tableUuid && id == req.identity
    ensures forall k | k in req.properties :: Has(AppendSummary(req, engineVersion), (k, req.properties[k]))
  {
    var s := AppendSummary(req, engineVersion);
    PublishedSummaryCarriesIdentity(req, engineVersion);
    assert CarriesIdentity(s, req.tableUuid, req.identity);
  }

  /** The checkpoint an append publishes for its writer (`checkpoint_property`). */
  function AppendCheckpoint(id: Identity, nowMs: nat): WriterCheckpoint {
    WriterCheckpoint(PROTOCOL_VERSION, id.epoch, id.gens.hi, id.commit, nowMs)
  }

  /** The checkpoint of a valid identity decodes to itself. */
  lemma CheckpointRoundTrip(tableUuid: Uuid, id: Identity, nowMs: nat)
    requires ValidIdentity(tableUuid, id)
    ensures Decode(Encode(AppendCheckpoint(id, nowMs))) == Success(AppendCheckpoint(id, nowMs))
    ensures EntryWellFormed(OwnKey(id.writer), Encode(AppendCheckpoint(id, nowMs)))
  {
  }
}
