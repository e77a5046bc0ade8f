// The idempotency slot of the agent API: the table operations of
// apps/api/middleware.py, the sweep of apps/api/tasks.py, and the protocol
// that concurrent workers run over them.
module Idempotency {
  import opened Wrappers

  /** response_status of a row whose response is not known yet. */
  const PENDING: nat := 0

  /** Row lifetime, in microseconds (the resolution of a timestamp). */
  const TTL: int := 24 * 3600 * 1_000_000

  datatype Slot = Slot(apiKey: nat, key: string)

  datatype Row = Row(id: nat, fingerprint: string, status: nat, body: string, createdAt: int)

  type Table = map<Slot, Row>

  datatype Disposition =
    | Passthrough
    | Claimed
    | Replay(status: nat, body: string)
    | InFlight
    | KeyReused  // ValueError: same key, different request
    | RowGone    // DoesNotExist: the row vanished between INSERT and SELECT

  // ---------------------------------------------------------------------
  // One SQL statement each
  // ---------------------------------------------------------------------

  function PlaceholderRow(id: nat, fingerprint: string, now: int): Row {
    Row(id, fingerprint, PENDING, "{}", now)
  }

  function Refetched(t: Table, slot: Slot, fingerprint: string): Disposition {
    if slot !in t then RowGone
    else if t[slot].fingerprint != fingerprint then KeyReused
    else if t[slot].status == PENDING then InFlight
    else Replay(t[slot].status, t[slot].body)
  }

  function Finalized(t: Table, slot: Slot, status: nat, body: string): Table {
    if slot in t then t[slot := t[slot].(status := status, body := body)] else t
  }

  function Released(t: Table, slot: Slot): Table {
    if slot in t && t[slot].status == PENDING then t - {slot} else t
  }

  function Swept(t: Table, cutoff: int): Table {
    map slot | slot in t && t[slot].createdAt >= cutoff :: t[slot]
  }

  class IdempotencyTable {
    var rows: Table
    var nextId: nat

    constructor ()
      ensures rows == map[] && nextId == 0
    {
      rows, nextId := map[], 0;
    }

    /** A claim that no other statement interrupts. */
    method Claim(apiKey: nat, key: Option<string>, fingerprint: string, now: int) returns (d: Disposition)
      modifies this
      ensures key.None? || key.value == "" ==> d == Passthrough && unchanged(this)
      ensures key.Some? && key.value != "" ==>
                var slot := Slot(apiKey, key.value);
                if slot in old(rows) then
                  && unchanged(this)
                  && !d.RowGone?
                  && (d == KeyReused <==> rows[slot].fingerprint != fingerprint)
                  && (d == InFlight <==> rows[slot].fingerprint == fingerprint && rows[slot].status == PENDING)
                  && (d.Replay? <==> rows[slot].fingerprint == fingerprint && rows[slot].status != PENDING)
                  && (d.Replay? ==> d == Replay(rows[slot].status, rows[slot].body))
                else
                  && d == Claimed
                  && rows == old(rows)[slot := Row(old(nextId), fingerprint, PENDING, "{}", now)]
                  && nextId == old(nextId) + 1
    {
      if key.None? || key.value == "" {
        return Passthrough;
      }
      var slot := Slot(apiKey, key.value);
      if slot !in rows {
        rows := rows[slot := PlaceholderRow(nextId, fingerprint, now)];
        nextId := nextId + 1;
        return Claimed;
      }
      d := Refetched(rows, slot, fingerprint);
    }

    /** filter(api_key, key).update(...): the claim's fingerprint is never overwritten. */
    method Finalize(apiKey: nat, key: Option<string>, status: nat, body: string)
      modifies this`rows
      ensures rows.Keys == old(rows).Keys
      ensures key.None? || key.value == "" ==> rows == old(rows)
      ensures forall slot :: slot in rows && (key.None? || slot != Slot(apiKey, key.value)) ==>
                rows[slot] == old(rows)[slot]
      ensures forall slot :: slot in rows && key.Some? && key.value != "" && slot == Slot(apiKey, key.value) ==>
                && rows[slot].status == status && rows[slot].body == body
                && rows[slot].fingerprint == old(rows)[slot].fingerprint
                && rows[slot].id == old(rows)[slot].id
                && rows[slot].createdAt == old(rows)[slot].createdAt
    {
      if key.None? || key.value == "" {
        return;
      }
      rows := Finalized(rows, Slot(apiKey, key.value), status, body);
    }

    method Release(apiKey: nat, key: Option<string>)
      modifies this`rows
      ensures key.None? || key.value == "" ==> rows == old(rows)
      ensures key.Some? && key.value != "" ==>
                forall slot :: slot in rows <==>
                  slot in old(rows) && !(slot == Slot(apiKey, key.value) && old(rows)[slot].status == PENDING)
      ensures forall slot :: slot in rows ==> rows[slot] == old(rows)[slot]
    {
      if key.None? || key.value == "" {
        return;
      }
      rows := Released(rows, Slot(apiKey, key.value));
    }

    /** The hourly task: status plays no part in what it deletes. */
    method Sweep(now: int)
      modifies this`rows
      ensures forall slot :: slot in rows <==> slot in old(rows) && now - old(rows)[slot].createdAt <= 86_400_000_000
      ensures forall slot :: slot in rows ==> rows[slot] == old(rows)[slot]
    {
      rows := Swept(rows, now - TTL);
    }
  }
}
