/**
 * The shared state of a Model Hub control plane: its three tables, the nonce
 * cache, the clock, and the calls that are in flight. Unique indexes are map
 * keys: `devices` by (node, local id), `pairing_codes` by code hash.
 */
module Fleet {
  import opened Base

  type OrgId = string
  type NodeId = string
  type LocalId = string
  type Bytes = seq<bv8>

  // ----- Rows

  datatype Status = Online | Degraded | Offline

  datatype HostColumns = HostColumns(
    hostname: string, platform: string, arch: string, osVersion: string,
    agentVersion: string, totalMemoryBytes: nat, cpuCores: nat)

  datatype NodeRow = NodeRow(
    orgId: OrgId, name: string, status: Status, host: HostColumns,
    publicKey: Bytes, lastSeenAt: Option<int>)

  /** What an inventory report says about a device. */
  datatype Facts = Facts(
    kind: string, index: nat, name: string, totalBytes: nat,
    wiredLimitBytes: nat, driverVersion: string, computeCapability: string)

  /** What the latest sample said about a device. */
  datatype Sampled = Sampled(
    usedBytes: nat, managedBytes: nat, utilization: real, pressure: string, at: Option<int>)

  const NEVER_SAMPLED := Sampled(0, 0, 0.0, "normal", None)

  datatype DeviceRow = DeviceRow(
    id: string, orgId: OrgId, facts: Facts, interactive: bool, sampled: Sampled)

  datatype CodeRow = CodeRow(
    orgId: OrgId, nodeName: string, createdBy: string, expiresAt: int, usedAt: Option<int>)

  type Nodes = map<NodeId, NodeRow>
  type DeviceKey = (NodeId, LocalId)
  type Devices = map<DeviceKey, DeviceRow>
  type Codes = map<string, CodeRow>

  /** Node id and nonce as sent, with the instant the key expires. */
  type Nonces = map<(string, string), int>

  // ----- Messages on the wire. Enums travel as numbers; 0 is "unspecified".

  datatype WireDevice = WireDevice(
    localId: LocalId, kind: int, index: nat, name: string, totalBytes: nat,
    wiredLimitBytes: nat, driverVersion: string, computeCapability: string)

  datatype WireSample = WireSample(
    localId: LocalId, usedBytes: nat, managedBytes: nat, utilization: real,
    temperatureC: real, powerWatts: real, pressure: int, sampledAtUnixMs: int)

  datatype Message =
    | Hello(host: HostColumns)
    | Inventory(devices: seq<WireDevice>)
    | Samples(samples: seq<WireSample>)
    | Unset

  // ----- Calls in flight

  datatype EnrollInput = EnrollInput(
    pairingCode: string, publicKey: Bytes, nodeName: string, host: HostColumns)

  datatype EnrollError =
    | BadPublicKey | AlreadyEnrolled | CodeAlreadyUsed | UnknownCode | CodeExpired | InsertFailed

  /** How far an enroll call has got; one step per statement it issues. */
  datatype EnrollPhase =
    | Prechecked
    | Missed
    | Claimed(row: CodeRow)
    | Releasing
    | Redeemed(orgId: OrgId, nodeName: string)
    | Enrolled(nodeId: NodeId)
    | Wasted(error: EnrollError)
    | Failed(error: EnrollError)

  /** `alive` turns false when the process running the call dies. */
  datatype EnrollCall = EnrollCall(input: EnrollInput, hash: string, alive: bool, phase: EnrollPhase)

  datatype Credentials = Credentials(nodeId: string, millis: string, nonce: string, signature: string)

  datatype AuthError =
    | MissingHeader | MalformedHeader | MalformedNodeId | MalformedTimestamp | OutsideWindow
    | UnknownNode | BadStoredKey | InvalidSignature | Replayed

  /** `at` is the header's timestamp as a number. */
  datatype AuthPhase =
    | Checked(creds: Credentials, at: real)
    | Verified(creds: Credentials, at: real, orgId: OrgId)
    | Accepted(creds: Credentials, at: real, orgId: OrgId, recordedAt: int)
    | Rejected(error: AuthError)

  /** One `connect` call; once accepted it is an open stream for its node. */
  datatype AuthCall = AuthCall(header: Option<string>, checkedAt: int, phase: AuthPhase)

  datatype SweepPhase = Begun | OfflineMarked | Finished

  datatype SweepCall = SweepCall(now: int, phase: SweepPhase)

  datatype State = State(
    clock: int, nodes: Nodes, devices: Devices, codes: Codes,
    nonces: Nonces,
    enrolls: map<nat, EnrollCall>, auths: map<nat, AuthCall>, sweeps: map<nat, SweepCall>)

  // ----- The environment: settings, and calls into code outside the repository

  datatype Env = Env(
    skewMs: nat,                                  // NODE_AUTH_SKEW_MS
    intervalMs: nat,                              // SAMPLE_INTERVAL_MS
    codeTtlMs: int,                               // PAIRING_CODE_TTL_MS
    hmac: string -> string,                       // HMAC under PAIRING_CODE_PEPPER
    upperOther: char -> string,                   // upper-casing of a non-ASCII character
    keyParses: Bytes -> bool,                     // is this an Ed25519 key
    verifies: (Bytes, string, string) -> bool,    // key, signed text, base64url signature
    otherNumber: string -> Option<real>)          // numerals other than plain decimals

  // ----- What can happen

  datatype EnrollEvent =
    | Start(input: EnrollInput) | Claim | Diagnose | CheckExpiry | Release
    | Insert(nodeId: NodeId) | InsertFails | Crash

  datatype AuthEvent = Check(header: Option<string>) | Verify | Record

  datatype SweepEvent = Begin | MarkOffline | MarkDegraded

  /**
   * One atomic statement of one call, or time passing. `stamp` is the instant a
   * heartbeat read from the clock before its write, and `newId` the row ids the
   * database would generate for the inserts of one report.
   */
  datatype Event =
    | Tick(ms: nat)
    | Mint(orgId: OrgId, userId: string, nodeName: string, code: string)
    | Enroll(call: nat, enroll: EnrollEvent)
    | Auth(call: nat, auth: AuthEvent)
    | Deliver(conn: nat, message: Message, stamp: int, newId: nat -> string)
    | Sweep(sweep: nat, statement: SweepEvent)

  const INITIAL := State(0, map[], map[], map[], map[], map[], map[], map[])
}
