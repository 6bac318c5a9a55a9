// The gossiped events a node pools, and the parameters every node shares.
// Signatures, hashes and JSON are opaque: a memo is carried as what the node's
// parsers return for it, and the checks on signed bytes are function values of Config.
module Events {

  datatype Option<+T> = None | Some(value: T)

  type Address = string

  const EPOCH_MS: int := 5000
  const GRACE_MS: int := 20_000
  const WINDOW_ROUNDS: int := 6
  const SETTLE_ROUNDS: int := 8
  const BASE_FEE: nat := 1000
  const HEARTBEAT: string := "ZIRA_FIELD_HEARTBEAT"

  // Math.floor(ts / EPOCH_MS); Dafny's division floors here because EPOCH_MS is positive.
  function EpochOf(timestamp: int): int { timestamp / EPOCH_MS }

  // The highest epoch that is closed and has had its grace period.
  function ClosableEpoch(now: int): int { (now - GRACE_MS) / EPOCH_MS - 1 }

  // address.startsWith("zir1")
  predicate IsZir(a: Address) { "zir1" <= a }

  // /^zir1[0-9a-z]{6,}$/
  predicate IsMinerAddress(a: Address) {
    IsZir(a) && |a| >= 10 && forall i :: 4 <= i < |a| ==> '0' <= a[i] <= '9' || 'a' <= a[i] <= 'z'
  }

  // ---- transactions ----

  datatype Output = Output(to: Address, amount: nat)

  // What parseBatchOutputs accepts: 1 to 256 well-formed outputs, all of them positive.
  predicate WellFormedOutputs(s: seq<Output>) {
    0 < |s| <= 256 && forall i :: 0 <= i < |s| ==> IsMinerAddress(s[i].to) && s[i].amount > 0
  }
  type Outputs = s: seq<Output> | WellFormedOutputs(s) witness [Output("zir1000000", 1)]

  datatype Payout = Payout(bucket: nat, outputs: Outputs)

  function OutputSum(s: seq<Output>): nat {
    if s == [] then 0 else s[0].amount + OutputSum(s[1..])
  }

  datatype AnchorOp =
    | Claim | Transfer | List | Delist | CodeEdit | VestStart | VestRelease
    | PositionTransfer | SetContributions | Activate

  // Numeric fields are None when the code's own type test (Number.isInteger / Number.isFinite) fails.
  datatype AnchorPayload =
    | ClaimSeat(seatId: string, code: string)
    | TransferSeat(seatId: string, to: Address)
    | ListSeat(seatId: string, price: Option<int>)
    | DelistSeat(seatId: string)
    | EditCode(seatId: string, codeHash: string)
    | StartVesting(seatId: string, beneficiary: Address, total: Option<int>, startAt: Option<int>,
                   duration: Option<int>)
    | ReleaseVesting(seatId: string, released: Option<int>)
    | TransferPositions(seatIds: seq<string>, to: Address, vestStartAt: Option<int>, vestDuration: Option<int>)
    | OpenContributions(seatIds: seq<string>, open: bool)
    | ActivateSeat(seatId: string)

  datatype Kind =
    | Transfer | AgentSpend | BondPost | BondReturn | BondBurn
    | Reward | ReserveGrant | FounderDelegate | FounderRevoke
    | StorageAttest | BatchTransfer | PoolPayout | SetBeneficiary
    | Anchor(op: AnchorOp)

  datatype Memo = Memo(
    batch: Option<Outputs>,
    payout: Option<Payout>,
    anchor: Option<AnchorPayload>,
    attested: seq<Address>,
    coordination: bool)

  datatype Tx = Tx(
    id: string, from: Address, fromPubKey: string, to: Address,
    amount: nat, fee: nat, nonce: nat, kind: Kind, timestamp: int, memo: Memo)
  {
    function Epoch(): int { EpochOf(timestamp) }
    function Need(): nat { amount + fee }
  }

  // ---- observations ----

  datatype Obs = Obs(
    id: string, observer: string, subject: string, domain: string, timestamp: int,
    value: Option<real>, confidence: real, vouched: seq<Address>, minerWork: map<Address, real>)
  {
    function Epoch(): int { EpochOf(timestamp) }
    predicate IsHeartbeat() { subject == HEARTBEAT }
  }

  function ObsKey(): Obs -> string { (o: Obs) => o.id }
  function ObserverKey(): Obs -> string { (o: Obs) => o.observer }

  datatype Claim = Reading(value: real, zti: real, confidence: real, observer: string)

  // A sealed Lock, as far as trust is concerned: the agreed value and how many observers stand behind it.
  datatype Resonance = Resonance(median: real, supporters: nat)

  // ---- what every node of one network shares ----

  datatype Config = Config(
    founder: Address,
    masters: seq<Address>,
    genesisEpoch: int,
    gapTtl: nat,
    decentralization: int,
    fieldPayout: int,
    poolBeneficiary: int,
    workWeighted: int,
    anchorWeight: int,
    verifyTx: Tx -> bool,
    verifyObs: Obs -> bool,
    hash: string -> string,
    addressOf: string -> Address,
    resonate: seq<Claim> -> Option<Resonance>,
    consistency: seq<real> -> real)
  {
    predicate IsGenesisMaster(a: Address) { a in masters }
    // The first genesis master, or the founder on a network without a master set.
    function Settler(): Address { if masters == [] then founder else masters[0] }
  }

  // decentralizationActive, and the same gate for the other staged features: 0 means dormant.
  predicate Armed(activation: int, epoch: int) { activation > 0 && epoch >= activation }
}
