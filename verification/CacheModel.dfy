/** The single-flight byte cache as a protocol (application/catalog/cache.go). Every
    section that runs under the cache's mutex is one function from the state of the
    cache to its next state; the goroutines that call `Load` and the executions they
    start are the environment that takes these steps in any order.
 */
module CacheModel {
  import opened Wrappers

  type SnapshotId = string
  type Digest = seq<nat>
  type Value = string
  type Caller = nat

  const MAX_UINT64 := 0xFFFF_FFFF_FFFF_FFFF

  datatype Key = Key(snapshot: SnapshotId, digest: Digest)

  datatype Limits = Limits(entries: nat, bytes: nat, flightEntries: nat, flightBytes: nat)

  /** What a value was decoded from: kept as history, not by the cache itself. */
  datatype Origin = Origin(flight: nat, decoder: nat, expectedLength: nat, data: seq<nat>)

  datatype Entry = Entry(key: Key, value: Value, weight: nat, origin: Origin)

  datatype Error =
    LoaderError | Panic | LengthMismatch | DigestMismatch | DecoderError | WeightExceeded | WeightOverflow

  datatype Outcome = Loaded(value: Value, weight: nat, data: seq<nat>) | Failed(error: Error)

  datatype Flight = Flight(
    key: Key, expectedLength: nat, maximumDecodedWeight: nat, decoder: nat, reservation: nat,
    waiters: int, done: bool, cancelled: bool, outcome: Option<Outcome>)

  datatype Request = Request(key: Key, expectedLength: nat, maximumDecodedWeight: nat, decoder: nat)

  /** `table` holds every flight ever started, in order: a flight is named by its index.
      `epoch` names the current `capacityChanged` channel. */
  datatype Cache = Cache(
    limits: Limits, entries: map<Key, Entry>, lru: seq<Entry>, bytes: int,
    flights: map<Key, nat>, table: seq<Flight>, waiters: int,
    flightEntries: int, flightBytes: int, epoch: nat)

  // ---------------------------------------------------------------- execution of a flight

  datatype LoaderResult = LoadError | LoadPanic | Data(bytes: seq<nat>)

  datatype DecoderResult = DecodeError | DecodePanic | Decoded(value: Value, weight: nat)

  /** The hash function and the decoders callers may pass. */
  datatype Env = Env(hash: seq<nat> -> Digest, decode: (nat, seq<nat>) -> DecoderResult)

  /** `execute`: what a flight completes with, given what its loader returned. */
  function Execute(env: Env, flight: Flight, loaded: LoaderResult): Outcome
  {
    match loaded
    case LoadError => Failed(LoaderError)
    case LoadPanic => Failed(Panic)
    case Data(bytes) =>
      if |bytes| != flight.expectedLength then Failed(LengthMismatch)
      else if env.hash(bytes) != flight.key.digest then Failed(DigestMismatch)
      else match env.decode(flight.decoder, bytes)
        case DecodeError => Failed(DecoderError)
        case DecodePanic => Failed(Panic)
        case Decoded(value, weight) =>
          if weight > flight.maximumDecodedWeight then Failed(WeightExceeded)
          else if weight > MAX_UINT64 - |bytes| then Failed(WeightOverflow)
          else Loaded(value, |bytes| + weight, bytes)
  }

  /** The entry holds what its decoder made of bytes that match its key. */
  ghost predicate Authentic(env: Env, e: Entry)
  {
    && |e.origin.data| == e.origin.expectedLength <= e.weight
    && env.hash(e.origin.data) == e.key.digest
    && env.decode(e.origin.decoder, e.origin.data) == Decoded(e.value, e.weight - |e.origin.data|)
  }

  function EntryOf(id: nat, flight: Flight, outcome: Outcome): Entry
    requires outcome.Loaded?
  {
    Entry(flight.key, outcome.value, outcome.weight,
      Origin(id, flight.decoder, flight.expectedLength, outcome.data))
  }

  lemma LoadedIsAuthentic(env: Env, id: nat, flight: Flight, loaded: LoaderResult)
    requires Execute(env, flight, loaded).Loaded?
    ensures Authentic(env, EntryOf(id, flight, Execute(env, flight, loaded)))
    ensures Execute(env, flight, loaded).weight <= flight.expectedLength + flight.maximumDecodedWeight
  {
  }

  // ---------------------------------------------------------------- the sections under the mutex

  function Without(lru: seq<Entry>, key: Key): seq<Entry>
  {
    if lru == [] then []
    else if lru[0].key == key then lru[1..]
    else [lru[0]] + Without(lru[1..], key)
  }

  function WithoutSnapshot(lru: seq<Entry>, snapshot: SnapshotId): seq<Entry>
  {
    if lru == [] then []
    else (if lru[0].key.snapshot == snapshot then [] else [lru[0]]) + WithoutSnapshot(lru[1..], snapshot)
  }

  function Weight(lru: seq<Entry>): nat
  {
    if lru == [] then 0 else lru[0].weight + Weight(lru[1..])
  }

  datatype Answer = Hit(value: Value) | TooLarge | Park(epoch: nat, reservation: nat) | Join(flight: nat)

  predicate Wired(c: Cache)
  {
    forall k :: k in c.flights ==> c.flights[k] < |c.table|
  }

  /** The locked section of `Load`, lines 133-176. */
  function LoadSection(c: Cache, request: Request): (Cache, Answer)
    requires Wired(c)
  {
    var reservation := request.expectedLength + request.maximumDecodedWeight;
    if request.key in c.entries then
      var e := c.entries[request.key];
      (c.(lru := [e] + Without(c.lru, request.key)), Hit(e.value))
    else if request.key in c.flights then
      (AddWaiter(c, c.flights[request.key]), Join(c.flights[request.key]))
    else if reservation > c.limits.flightBytes || c.limits.flightEntries == 0 || c.limits.flightBytes == 0 then
      (c, TooLarge)
    else if c.flightEntries >= c.limits.flightEntries || c.flightBytes > c.limits.flightBytes - reservation then
      (c, Park(c.epoch, reservation))
    else
      (AddWaiter(StartFlight(c, request, reservation), |c.table|), Join(|c.table|))
  }

  function StartFlight(c: Cache, request: Request, reservation: nat): Cache
  {
    var flight := Flight(
      request.key, request.expectedLength, request.maximumDecodedWeight, request.decoder, reservation,
      0, false, false, None);
    c.(flights := c.flights[request.key := |c.table|],
       table := c.table + [flight],
       flightEntries := c.flightEntries + 1,
       flightBytes := c.flightBytes + reservation)
  }

  function AddWaiter(c: Cache, id: nat): Cache
    requires id < |c.table|
  {
    c.(table := c.table[id := c.table[id].(waiters := c.table[id].waiters + 1)], waiters := c.waiters + 1)
  }

  /** Line 279: the cache is over one of its limits. */
  predicate Over(limits: Limits, lru: seq<Entry>, bytes: int)
  {
    |lru| > limits.entries || bytes > limits.bytes
  }

  /** The eviction loop of `admit`: entries leave at the back until the limits hold. */
  function Shrink(limits: Limits, lru: seq<Entry>, bytes: int): (seq<Entry>, int)
    decreases |lru|
  {
    if Over(limits, lru, bytes) && lru != [] then
      var n := |lru| - 1;
      Shrink(limits, lru[..n], bytes - lru[n].weight)
    else (lru, bytes)
  }

  function KeysOf(lru: seq<Entry>): set<Key>
  {
    set e | e in lru :: e.key
  }

  function Restrict(entries: map<Key, Entry>, keys: set<Key>): map<Key, Entry>
  {
    map k | k in entries && k in keys :: entries[k]
  }

  /** `admit`. */
  function Admit(c: Cache, entry: Entry): Cache
  {
    var lru := [entry] + Without(c.lru, entry.key);
    var bytes := c.bytes - (if entry.key in c.entries then c.entries[entry.key].weight else 0) + entry.weight;
    var (lru', bytes') := Shrink(c.limits, lru, bytes);
    c.(lru := lru', bytes := bytes', entries := Restrict(c.entries[entry.key := entry], KeysOf(lru')))
  }

  predicate Owns(c: Cache, id: nat)
    requires id < |c.table|
  {
    c.table[id].key in c.flights && c.flights[c.table[id].key] == id
  }

  /** Lines 240-247: detach the flight if it is still attached, give its reservation
      back and wake the parked callers. */
  function Detach(c: Cache, id: nat): Cache
    requires id < |c.table|
  {
    c.(flights := if Owns(c, id) then c.flights - {c.table[id].key} else c.flights,
       flightEntries := c.flightEntries - 1,
       flightBytes := c.flightBytes - c.table[id].reservation,
       epoch := c.epoch + 1)
  }

  predicate Cacheable(limits: Limits, weight: nat)
  {
    !(weight > limits.bytes || limits.entries == 0 || limits.bytes == 0)
  }

  function Settle(c: Cache, id: nat, outcome: Outcome): Cache
    requires id < |c.table|
  {
    c.(table := c.table[id := c.table[id].(done := true, cancelled := true, outcome := Some(outcome))])
  }

  /** `complete`. */
  function Complete(c: Cache, id: nat, outcome: Outcome): Cache
    requires id < |c.table|
  {
    var flight := c.table[id];
    var detached := Detach(c, id);
    var admitted :=
      if outcome.Loaded? && Owns(c, id) && Cacheable(c.limits, outcome.weight)
      then Admit(detached, EntryOf(id, flight, outcome)) else detached;
    Settle(admitted, id, outcome)
  }

  /** `releaseWaiter`, with its guards against underflow. */
  function ReleaseWaiter(c: Cache, id: nat): Cache
    requires id < |c.table|
  {
    var flight := c.table[id];
    var left := if flight.waiters > 0 then flight.waiters - 1 else flight.waiters;
    var abandon := left == 0 && Owns(c, id);
    c.(waiters := if c.waiters > 0 then c.waiters - 1 else c.waiters,
       flights := if abandon then c.flights - {flight.key} else c.flights,
       table := c.table[id := flight.(waiters := left, cancelled := flight.cancelled || abandon)])
  }

  function CancelSnapshot(table: seq<Flight>, flights: map<Key, nat>, snapshot: SnapshotId): seq<Flight>
  {
    seq(|table|, i requires 0 <= i < |table| =>
      var f := table[i];
      f.(cancelled := f.cancelled || (f.key.snapshot == snapshot && f.key in flights && flights[f.key] == i)))
  }

  /** `EvictSnapshot`. */
  function EvictSnapshot(c: Cache, snapshot: SnapshotId): Cache
  {
    var lru := WithoutSnapshot(c.lru, snapshot);
    c.(lru := lru,
       bytes := c.bytes - (Weight(c.lru) - Weight(lru)),
       entries := map k | k in c.entries && k.snapshot != snapshot :: c.entries[k],
       flights := map k | k in c.flights && k.snapshot != snapshot :: c.flights[k],
       table := CancelSnapshot(c.table, c.flights, snapshot))
  }
}
