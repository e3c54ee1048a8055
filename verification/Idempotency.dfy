/** The idempotency protocol of app/core/idempotency.py: records, the decision taken on an existing record,
    and the sequential form of start_or_replay and complete.  Times are seconds. */
module Idempotency {
  import opened Prelude

  type Bytes = seq<bv8>

  datatype Response = Response(status: int, headers: map<string, string>, body: Bytes)

  /** The JSON document kept in response_body. */
  datatype Blob = Blob(v: int, headers: map<string, string>, bodyB64: string)

  datatype Stored = Stored(status: int, blob: Blob)

  /** base64 of the library: encode is total, decode may fail. */
  datatype Codec = Codec(encode: Bytes -> string, decode: string -> Option<Bytes>)

  ghost predicate RoundTrips(codec: Codec) {
    forall b :: codec.decode(codec.encode(b)) == Some(b)
  }

  datatype Config = Config(ttl: int, maxBytes: int, codec: Codec)

  function Ttl(c: Config): int {
    Max(c.ttl, 1)
  }

  function StaleAfter(c: Config): int {
    Min(Max(c.ttl / 12, 30), 120)
  }

  /** No second execution of one request may start within this many seconds. */
  function Window(c: Config): int {
    Min(Ttl(c), StaleAfter(c))
  }

  /** _serialize_response; None is the response too large to store. */
  function Serialize(c: Config, r: Response): Option<Stored> {
    if |r.body| > Max(c.maxBytes, 1) then None
    else Some(Stored(r.status, Blob(1, r.headers, c.codec.encode(r.body))))
  }

  /** _deserialize_response; None is the invalid record. */
  function Deserialize(c: Config, s: Stored): Option<Response> {
    if s.blob.v != 1 then None
    else
      match c.codec.decode(s.blob.bodyB64)
      case None => None
      case Some(body) => Some(Response(s.status, s.blob.headers, body))
  }

  /** A response is stored exactly if its body fits, and then reads back as it was. */
  lemma StoredResponseRoundTrips(c: Config, r: Response)
    requires RoundTrips(c.codec)
    ensures Serialize(c, r).Some? <==> |r.body| <= c.maxBytes || |r.body| <= 1
    ensures Serialize(c, r).Some? ==> Deserialize(c, Serialize(c, r).value) == Some(r)
  {
    assert c.codec.decode(c.codec.encode(r.body)) == Some(r.body);
  }

  /** The unique (client, idempotency key) of a record. */
  datatype Pair = Pair(client: int, ikey: string)

  datatype Row = Row(id: nat, hash: string, completed: bool, response: Option<Stored>, createdAt: real, expiresAt: real)

  type Table = map<Pair, Row>

  function Cleaned(rows: Table, client: int, now: real): Table {
    map p | p in rows && !(p.client == client && rows[p].expiresAt < now) :: rows[p]
  }

  /** DELETE by primary key. */
  function Without(rows: Table, id: nat): Table {
    map p | p in rows && rows[p].id != id :: rows[p]
  }

  /** complete(): UPDATE by primary key, a no-op when the row is gone or the response does not fit. */
  function CompletedTable(c: Config, rows: Table, id: nat, r: Response): Table {
    if Serialize(c, r).None? then rows
    else map p | p in rows :: if rows[p].id == id then rows[p].(completed := true, response := Serialize(c, r))
         else rows[p]
  }

  /** The primary key. */
  ghost predicate UniqueIds(rows: Table) {
    forall p, q :: p in rows && q in rows && rows[p].id == rows[q].id ==> p == q
  }

  datatype Decision = DeleteAndRetry | HashConflict | Replay(stored: Stored) | StillRunning

  predicate Expired(row: Row, now: real) {
    row.expiresAt < now
  }

  predicate Stale(c: Config, row: Row, now: real) {
    !row.completed && now - row.createdAt > StaleAfter(c) as real
  }

  /** What start_or_replay makes of the record it ran into. */
  function Decide(c: Config, row: Row, hash: string, now: real): Decision {
    if Expired(row, now) then DeleteAndRetry
    else if row.hash != hash then HashConflict
    else if row.completed && row.response.Some? then Replay(row.response.value)
    else if Stale(c, row, now) then DeleteAndRetry
    else StillRunning
  }

  datatype Outcome =
    | Unguarded          // disabled, or no key given
    | Execute(id: nat)
    | Replayed(response: Response)
    | KeyRequired        // 400
    | KeyConflict        // 409
    | InProgress         // 409, retry after 1
    | Unavailable        // 503

  /** What a start with this hash is told, `found` being the record of its key.  A record without a response keeps its
      key for a twelfth of the ttl, but for thirty seconds at least and two minutes at most. */
  ghost predicate Answered(c: Config, found: Option<Row>, hash: string, now: real, outcome: Outcome) {
    var grace := if c.ttl < 360 then 30 else if c.ttl >= 1440 then 120 else c.ttl / 12;
    var live := found.Some? && now <= found.value.expiresAt;
    var mine := live && found.value.hash == hash;
    var stored := mine && found.value.completed && found.value.response.Some?;
    var abandoned := mine && !found.value.completed && now - found.value.createdAt > grace as real;
    && (outcome == KeyConflict <==> live && found.value.hash != hash)
    && (outcome.Replayed? || outcome == Unavailable <==> stored)
    && (outcome == InProgress <==> mine && !stored && !abandoned)
    && (outcome.Execute? <==> !live || abandoned)
    && (stored ==> Reads(c, found.value.response.value, outcome))
  }

  /** A stored response of version 1 whose body decodes is given back, any other cannot be. */
  predicate Reads(c: Config, s: Stored, outcome: Outcome) {
    if s.blob.v == 1 && c.codec.decode(s.blob.bodyB64).Some?
    then outcome == Replayed(Response(s.status, s.blob.headers, c.codec.decode(s.blob.bodyB64).value))
    else outcome == Unavailable
  }

  /** The record of a request that has just begun, which lives for the ttl, or for a second if that is less. */
  ghost predicate Begun(c: Config, row: Row, id: nat, hash: string, clock: seq<real>)
    requires |clock| == 2
  {
    && row.id == id && row.hash == hash && !row.completed && row.response == None
    && clock[0] <= row.createdAt <= clock[1]
    && row.expiresAt == row.createdAt + (if c.ttl < 1 then 1 else c.ttl) as real
  }

  /** The record `was`, completed with the response. */
  predicate Holds(c: Config, row: Row, was: Row, r: Response) {
    && row.completed && row.response == Some(Stored(r.status, Blob(1, r.headers, c.codec.encode(r.body))))
    && row.id == was.id && row.hash == was.hash && row.createdAt == was.createdAt && row.expiresAt == was.expiresAt
  }

  /** From its completion to its expiry a record gives its response to the same request, and a conflict to any other. */
  lemma CompletedIsReplayed(c: Config, was: Row, row: Row, r: Response, hash: string, now: real, outcome: Outcome)
    requires RoundTrips(c.codec) && Holds(c, row, was, r) && now <= was.expiresAt
    requires Answered(c, Some(row), hash, now, outcome)
    ensures outcome == if hash == was.hash then Replayed(r) else KeyConflict
  {
    assert c.codec.decode(c.codec.encode(r.body)) == Some(r.body);
  }

  /** What a start leaves behind: its own record if it is to execute, else its key untouched; the records of other keys
      as they were, except expired ones of the client, which go if the cleanup works. */
  ghost predicate Started(c: Config, before: Table, after: Table, p: Pair, hash: string, clock: seq<real>,
                          cleanupOk: bool, outcome: Outcome)
    requires |clock| == 2
  {
    && Answered(c, Get(before, p), hash, clock[0], outcome)
    && (if outcome.Execute? then p in after && Begun(c, after[p], outcome.id, hash, clock)
        else Get(after, p) == Get(before, p))
    && OthersStay(before, after, p, clock, cleanupOk)
  }

  ghost predicate OthersStay(before: Table, after: Table, p: Pair, clock: seq<real>, cleanupOk: bool)
    requires |clock| == 2
  {
    forall q :: q != p ==>
      && (q in after ==> q in before && after[q] == before[q])
      && (q in before && (q.client != p.client || clock[1] <= before[q].expiresAt) ==> q in after)
      && (q in after && q.client == p.client && cleanupOk ==> clock[0] <= after[q].expiresAt)
  }

  lemma DecideAnswers(c: Config, row: Row, hash: string, now: real, outcome: Outcome)
    requires match Decide(c, row, hash, now)
             case DeleteAndRetry => outcome.Execute?
             case HashConflict => outcome == KeyConflict
             case StillRunning => outcome == InProgress
             case Replay(stored) =>
               outcome == if Deserialize(c, stored).Some? then Replayed(Deserialize(c, stored).value) else Unavailable
    ensures Answered(c, Some(row), hash, now, outcome)
  {
  }

  class IdempotencyStore {
    const config: Config
    var rows: Table
    var nextId: nat

    ghost predicate Valid()
      reads this
    {
      (forall p :: p in rows ==> rows[p].id < nextId) && UniqueIds(rows)
    }

    constructor (config: Config)
      ensures Valid() && rows == map[] && nextId == 0 && this.config == config
    {
      this.config := config;
      rows, nextId := map[], 0;
    }

    /** One caller with the table to itself.  `clock[0]` is read on entry and `clock[1]`, later, by the retry,
        which then finds the key free. */
    method StartOrReplay(enabled: bool, required: bool, client: int, ikey: Option<string>, hash: string,
                         clock: seq<real>, cleanupOk: bool)
      returns (outcome: Outcome)
      requires Valid() && |clock| == 2 && clock[0] <= clock[1]
      modifies this
      ensures Valid()
      ensures outcome == Unguarded <==> !enabled || (!required && (ikey == None || ikey == Some("")))
      ensures outcome == KeyRequired <==> enabled && required && (ikey == None || ikey == Some(""))
      ensures outcome.Unguarded? || outcome.KeyRequired? ==> rows == old(rows) && nextId == old(nextId)
      ensures !outcome.Unguarded? && !outcome.KeyRequired? ==>
                Started(config, old(rows), rows, Pair(client, ikey.value), hash, clock, cleanupOk, outcome)
                && nextId == old(nextId) + (if outcome.Execute? then 1 else 0)
                && (outcome.Execute? ==> outcome.id == old(nextId))
    {
      if !enabled {
        return Unguarded;
      }
      if ikey == None || ikey == Some("") {
        return if required then KeyRequired else Unguarded;
      }
      outcome := Start(Pair(client, ikey.value), hash, clock, cleanupOk);
    }

    /** The part that touches the table. */
    method Start(p: Pair, hash: string, clock: seq<real>, cleanupOk: bool) returns (outcome: Outcome)
      requires Valid() && |clock| == 2 && clock[0] <= clock[1]
      modifies this
      ensures Valid() && !outcome.Unguarded? && !outcome.KeyRequired?
      ensures Started(config, old(rows), rows, p, hash, clock, cleanupOk, outcome)
      ensures nextId == old(nextId) + (if outcome.Execute? then 1 else 0)
      ensures outcome.Execute? ==> outcome.id == old(nextId)
    {
      ghost var before := rows;
      var now := clock[0];
      if cleanupOk {
        rows := Cleaned(rows, p.client, now);
      }
      if p !in rows {
        outcome := Insert(p, hash, now);
        return;
      }
      var existing := rows[p];
      var decision := Decide(config, existing, hash, now);
      match decision
      case DeleteAndRetry =>
        rows := Without(rows, existing.id);
        if cleanupOk {
          rows := Cleaned(rows, p.client, clock[1]);
        }
        outcome := Insert(p, hash, clock[1]);
      case HashConflict => outcome := KeyConflict;
      case Replay(stored) =>
        var r := Deserialize(config, stored);
        outcome := if r.Some? then Replayed(r.value) else Unavailable;
      case StillRunning => outcome := InProgress;
      DecideAnswers(config, existing, hash, now, outcome);
      assert before[p] == existing;
    }

    method Insert(p: Pair, hash: string, now: real) returns (outcome: Outcome)
      requires Valid() && p !in rows
      modifies this
      ensures Valid() && outcome == Execute(old(nextId)) && nextId == old(nextId) + 1
      ensures rows == old(rows)[p := Row(old(nextId), hash, false, None, now, now + Ttl(config) as real)]
    {
      rows := rows[p := Row(nextId, hash, false, None, now, now + Ttl(config) as real)];
      nextId := nextId + 1;
      return Execute(nextId - 1);
    }

    method Complete(id: nat, r: Response)
      requires Valid()
      modifies this
      ensures Valid() && nextId == old(nextId) && rows == CompletedTable(config, old(rows), id, r)
      ensures rows.Keys == old(rows).Keys
      ensures forall p :: p in rows && (old(rows)[p].id != id || |r.body| > Max(config.maxBytes, 1)) ==>
                rows[p] == old(rows)[p]
      ensures forall p :: p in rows && old(rows)[p].id == id && |r.body| <= Max(config.maxBytes, 1) ==>
                Holds(config, rows[p], old(rows)[p], r)
    {
      if p :| p in rows && rows[p].id == id {
        var stored := Serialize(config, r);
        if stored.Some? {
          rows := rows[p := rows[p].(completed := true, response := stored)];
        }
      }
      assert rows == CompletedTable(config, old(rows), id, r);
    }
  }
}
