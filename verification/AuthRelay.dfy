/**
 The auth service's revocation relay: the batch is written as a whole, and its rows are marked only
 when the broker acknowledged every one of them.
 */
module AuthRelay {
  import opened Common
  import opened OutboxRelay
  import Publishing
  import opened Denylists

  /** What goes to the broker: the payload, and the outbox row id as a header. */
  datatype Record = Record(eventId: nat, revocation: Revocation)

  const BATCH_SIZE: nat := 100

  function RecordsOf(rows: seq<OutboxRow<Revocation>>, ids: seq<nat>): (r: seq<Record>)
    requires forall k :: 0 <= k < |ids| ==> ids[k] < |rows|
    ensures |r| == |ids|
    ensures forall k :: 0 <= k < |ids| ==> r[k] == Record(ids[k], rows[ids[k]].event)
  {
    seq(|ids|, k requires 0 <= k < |ids| => Record(ids[k], rows[ids[k]].event))
  }

  /** A pass takes a hundred rows, or all there are. */
  lemma AHundredAtMost(rows: seq<OutboxRow<Revocation>>, locked: set<nat>)
    ensures |Claimed(rows, locked, BATCH_SIZE)| <= 100
    ensures |Claimed(rows, locked, BATCH_SIZE)| < 100 ==>
              forall k: nat :: k < |rows| && !rows[k].published && k !in locked ==>
                k in Claimed(rows, locked, BATCH_SIZE)
  {
    ClaimTakesTheOldest(rows, locked, BATCH_SIZE);
    forall k: nat | k < |rows| && !rows[k].published && k !in locked && k !in Claimed(rows, locked, BATCH_SIZE)
      ensures |Claimed(rows, locked, BATCH_SIZE)| == 100
    {
      assert Free(rows, locked, k);
    }
  }

  predicate AllAcknowledged(ids: seq<nat>, fate: nat -> Fate) {
    forall k :: 0 <= k < |ids| ==> fate(ids[k]).Acknowledged?
  }

  lemma {:induction false} AcknowledgedMeansAppended(ids: seq<nat>, fate: nat -> Fate)
    requires AllAcknowledged(ids, fate)
    ensures Appended(ids, fate) == ids
  {
    if ids != [] {
      AcknowledgedMeansAppended(ids[..|ids| - 1], fate);
    }
  }

  lemma AppendedOneMore(ids: seq<nat>, k: nat, fate: nat -> Fate)
    requires k < |ids|
    ensures Appended(ids[..k + 1], fate) == Appended(ids[..k], fate) + (if fate(ids[k]).Lost? then [] else [ids[k]])
    ensures AllAcknowledged(ids[..k + 1], fate) <==> AllAcknowledged(ids[..k], fate) && fate(ids[k]).Acknowledged?
  {
    var more := ids[..k + 1];
    assert more[..k] == ids[..k] && more[k] == ids[k];
    assert forall m :: 0 <= m < k ==> more[m] == ids[..k][m];
  }

  /** The log has grown by the records of those ids that were not lost. */
  ghost predicate Sent(
      rows: seq<OutboxRow<Revocation>>, ids: seq<nat>, fate: nat -> Fate, before: seq<Record>, log: seq<Record>)
  {
    var appended := Appended(ids, fate);
    (forall m :: 0 <= m < |appended| ==> appended[m] < |rows|) && log == before + RecordsOf(rows, appended)
  }

  lemma SentOneMore(
      rows: seq<OutboxRow<Revocation>>, ids: seq<nat>, k: nat, fate: nat -> Fate,
      before: seq<Record>, log: seq<Record>)
    requires k < |ids| && ids[k] < |rows| && Sent(rows, ids[..k], fate, before, log)
    ensures Sent(rows, ids[..k + 1], fate, before,
                 if fate(ids[k]).Lost? then log else log + [Record(ids[k], rows[ids[k]].event)])
  {
    AppendedOneMore(ids, k, fate);
    var appended := Appended(ids[..k], fate);
    if !fate(ids[k]).Lost? {
      assert RecordsOf(rows, appended + [ids[k]]) == RecordsOf(rows, appended) + [Record(ids[k], rows[ids[k]].event)];
    }
  }

  ghost predicate MarkedAreLogged(rows: seq<OutboxRow<Revocation>>, log: seq<Record>) {
    forall e: nat :: e < |rows| && rows[e].published ==> Record(e, rows[e].event) in log
  }

  lemma LoggingKeepsMarked(rows: seq<OutboxRow<Revocation>>, log: seq<Record>, added: seq<Record>)
    requires MarkedAreLogged(rows, log)
    ensures MarkedAreLogged(rows, log + added)
  {
  }

  /** Marking rows whose records have just been appended. */
  lemma MarkingKeepsMarked(rows: seq<OutboxRow<Revocation>>, log: seq<Record>, ids: seq<nat>)
    requires forall k :: 0 <= k < |ids| ==> ids[k] < |rows|
    requires MarkedAreLogged(rows, log)
    ensures MarkedAreLogged(Marked(rows, ids), log + RecordsOf(rows, ids))
  {
    var marked, grown := Marked(rows, ids), log + RecordsOf(rows, ids);
    forall e: nat | e < |marked| && marked[e].published ensures Record(e, marked[e].event) in grown {
      if e in ids {
        var k :| 0 <= k < |ids| && ids[k] == e;
        assert grown[|log| + k] == Record(e, rows[e].event);
      }
    }
  }

  class RevocationRelay {
    var rows: seq<OutboxRow<Revocation>>
    /** The broker's log. */
    var log: seq<Record>

    /** Each marked row has a record in the log carrying its id and its payload. */
    ghost predicate Valid()
      reads this
    {
      MarkedAreLogged(rows, log)
    }

    /** Blocks until the broker has answered for every message; an error says that some were not acknowledged. */
    method WriteMessages(ghost ids: seq<nat>, messages: seq<Record>, fate: nat -> Fate) returns (ok: bool)
      requires |messages| == |ids| && forall k :: 0 <= k < |ids| ==> ids[k] < |rows|
      requires messages == RecordsOf(rows, ids)
      modifies this`log
      ensures ok <==> AllAcknowledged(ids, fate)
      ensures forall k :: 0 <= k < |Appended(ids, fate)| ==> Appended(ids, fate)[k] < |rows|
      ensures log == old(log) + RecordsOf(rows, Appended(ids, fate))
    {
      ok := true;
      for k := 0 to |messages|
        invariant ok <==> AllAcknowledged(ids[..k], fate)
        invariant Sent(rows, ids[..k], fate, old(log), log)
      {
        AppendedOneMore(ids, k, fate);
        SentOneMore(rows, ids, k, fate, old(log), log);
        assert messages[k] == Record(ids[k], rows[ids[k]].event);
        if !fate(messages[k].eventId).Lost? {
          log := log + [messages[k]];
        }
        ok := ok && fate(messages[k].eventId).Acknowledged?;
      }
      assert ids[..|ids|] == ids;
    }

    /** `locked` are the rows of claims that other relays are running at that moment. */
    method PublishBatch(locked: set<nat>, fate: nat -> Fate, marks: bool) returns (ok: bool)
      requires Valid()
      modifies this
      ensures Valid()
      ensures var ids := Claimed(old(rows), locked, BATCH_SIZE);
              && (ok <==> ids == [] || (AllAcknowledged(ids, fate) && marks))
              && rows == (if ok then Marked(old(rows), ids) else old(rows))
              && (forall k :: 0 <= k < |Appended(ids, fate)| ==> Appended(ids, fate)[k] < |old(rows)|)
              && log == old(log) + RecordsOf(old(rows), Appended(ids, fate))
    {
      var events := Claimed(rows, locked, BATCH_SIZE);
      ClaimTakesTheOldest(rows, locked, BATCH_SIZE);
      assert forall k :: 0 <= k < |events| ==> events[k] in events;
      if events == [] {
        assert Marked(rows, []) == rows && RecordsOf(rows, []) == [];
        return true;
      }
      var messages, ids := Messages(events);
      ok := WriteMessages(events, messages, fate);
      LoggingKeepsMarked(rows, old(log), RecordsOf(rows, Appended(events, fate)));
      if ok {
        AcknowledgedMeansAppended(events, fate);
        MarkingKeepsMarked(rows, old(log), events);
      }
      ok := ok && marks;
      if ok {
        rows := Marked(rows, ids);
      }
    }

    method Messages(events: seq<nat>) returns (messages: seq<Record>, ids: seq<nat>)
      requires forall k :: 0 <= k < |events| ==> events[k] < |rows|
      ensures ids == events && messages == RecordsOf(rows, events)
    {
      messages, ids := [], [];
      for k := 0 to |events|
        invariant ids == events[..k]
        invariant messages == RecordsOf(rows, events[..k])
      {
        messages := messages + [Record(events[k], rows[events[k]].event)];
        ids := ids + [events[k]];
      }
      assert events[..|events|] == events;
    }
  }

  // ---- The relay process takes the machine's steps

  /**
   A pass of `PublishBatch` is a run of the publishing machine without locks, from any safe state,
   whatever other relays are in the middle of: the same rows are marked and the same ids logged.
   */
  lemma PassIsARun(s: Publishing.State<Revocation>, r: nat, fate: nat -> Fate, marks: bool)
    returns (steps: seq<Publishing.Step<Revocation>>, t: Publishing.State<Revocation>)
    requires Publishing.Safe(s) && !s.locks && r < |s.relays| && s.relays[r].Idle?
    ensures Publishing.Leads(s, steps, t)
    ensures var batch := Claimed(s.rows, Publishing.Held(s, r), BATCH_SIZE);
            && t.rows == (if batch != [] && AllAcknowledged(batch, fate) && marks
                          then Marked(s.rows, batch) else s.rows)
            && t.log == s.log + Appended(batch, fate) && t.relays == s.relays
  {
    var batch := Claimed(s.rows, Publishing.Held(s, r), BATCH_SIZE);
    if batch == [] {
      steps, t := [], s;
      assert s.log + [] == s.log;
    } else {
      var ok := AllAcknowledged(batch, fate) && marks;
      if ok {
        AcknowledgedMeansAppended(batch, fate);
      }
      steps, t := Publishing.PassLeads(s, r, BATCH_SIZE, fate,
                                       if ok then Publishing.Recorded(batch) else Publishing.Abandoned);
    }
  }
}
