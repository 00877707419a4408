/** Transactions and retry on one server connection (driver/mysql/sdb_conn.cc and
    driver/mysql/sdb_cl.cc).  The network may fail at any call; what it answers is
    left open, so the contracts hold for every way it can behave.  The log records
    what was done to the server and is what the guarantees speak about. */
module Session {

  /** Return codes, as far as the code tells them apart.  `Benign` is the code an
      operation may treat as success (dropping a collection that is gone, creating
      an index that exists). */
  datatype Rc = Ok | NetError | Benign | OtherError

  datatype Event =
    | Checked(ok: bool)                              // whether the connection is still valid
    | Connected(session: nat)                        // a new session replaced the old one
    | Lost                                           // reconnecting failed
    | Began(session: nat, rc: Rc)                    // what transactionBegin answered
    | Ended(session: nat, rc: Rc)                    // what commit or rollback answered
    | Sent(session: nat, inTxn: bool, rc: Rc)        // what an operation answered

  /** The session whose transaction is open after the event, if `open` was before. */
  function After(open: int, e: Event): int {
    match e
    case Checked(ok) => if ok then open else -1
    case Connected(_) => -1
    case Lost => -1
    case Began(s, rc) => if rc == Ok then s else -1
    case Ended(_, _) => -1
    case Sent(_, _, _) => open
  }

  /** The session whose transaction is open at the end of the log, or -1. */
  function OpenTxn(log: seq<Event>): int {
    if log == [] then -1 else After(OpenTxn(log[..|log| - 1]), log[|log| - 1])
  }

  /** Operations sent in a transaction go to the session whose transaction is open,
      and operations sent outside one are sent while none is open. */
  ghost predicate InTheirTransaction(log: seq<Event>) {
    log == [] ||
    var before, e := log[..|log| - 1], log[|log| - 1];
    && InTheirTransaction(before)
    && (e.Sent? ==> OpenTxn(before) == if e.inTxn then e.session else -1)
  }

  lemma {:induction false} ExtendLog(log: seq<Event>, e: Event)
    requires InTheirTransaction(log)
    requires e.Sent? ==> OpenTxn(log) == if e.inTxn then e.session else -1
    ensures InTheirTransaction(log + [e]) && OpenTxn(log + [e]) == After(OpenTxn(log), e)
    ensures Sends(log + [e]) == Sends(log) + if e.Sent? then 1 else 0
  {
    assert (log + [e])[..|log|] == log;
  }

  lemma {:induction false} InTheirTransactionAt(log: seq<Event>, i: nat)
    requires InTheirTransaction(log) && i < |log| && log[i].Sent?
    ensures OpenTxn(log[..i]) == if log[i].inTxn then log[i].session else -1
  {
    if i < |log| - 1 {
      InTheirTransactionAt(log[..|log| - 1], i);
      assert log[..|log| - 1][..i] == log[..i];
    }
  }

  /** Nothing that ends a transaction. */
  predicate Quiet(e: Event) {
    e.Sent? || e == Checked(true)
  }

  /** What an open transaction means: it was begun in that session, and since then there
      were only operations and checks that found the connection valid; no reconnect, no
      commit, no rollback. */
  lemma {:induction false} OpenTxnMeansBegan(log: seq<Event>) returns (b: nat)
    requires OpenTxn(log) >= 0
    ensures b < |log| && log[b] == Began(OpenTxn(log), Ok)
    ensures forall i | b < i < |log| :: Quiet(log[i])
  {
    var n := |log| - 1;
    if log[n].Began? {
      b := n;
    } else {
      b := OpenTxnMeansBegan(log[..n]);
    }
  }

  function Sends(log: seq<Event>): nat {
    if log == [] then 0 else Sends(log[..|log| - 1]) + if log[|log| - 1].Sent? then 1 else 0
  }

  // ----- what each call leaves in the log

  /** From index n on: a check, and if it failed one attempt to reconnect. */
  ghost predicate Reconnects(log: seq<Event>, n: nat, session: nat, next: nat, session': nat, rc: Rc) {
    && n < |log| && log[n].Checked?
    && (log[n].ok ==> |log| == n + 1 && rc == Ok && session' == session)
    && (!log[n].ok && rc == Ok ==> |log| == n + 2 && log[n + 1] == Connected(next) && session' == next)
    && (!log[n].ok && rc != Ok ==> |log| == n + 2 && log[n + 1] == Lost && session' == session)
  }

  /** From n to m the log holds one connect: a check, and if it failed one attempt. */
  ghost predicate ConnectEvents(log: seq<Event>, n: nat, m: nat) {
    && n < m <= |log| && log[n].Checked?
    && m == (if log[n].ok then n + 1 else n + 2)
    && (!log[n].ok ==> log[n + 1].Connected? || log[n + 1].Lost?)
  }

  /** From index n on: an attempt to begin, and if the network failed a reconnect and one
      more; the last attempt gives the answer. */
  ghost predicate Begins(log: seq<Event>, n: nat, session: nat, rc: Rc) {
    && n < |log| && log[n].Began? && log[n].session == session
    && (log[n].rc != NetError ==> |log| == n + 1 && rc == log[n].rc)
    && (log[n].rc == NetError ==>
          && ConnectEvents(log, n + 1, |log| - 1)
          && log[|log| - 1].Began? && rc == log[|log| - 1].rc)
  }

  /** From index n on: the end is sent to the session of the transaction, and a connect
      follows if and only if the network failed. */
  ghost predicate Ends(log: seq<Event>, n: nat, session: nat) {
    && n < |log| && log[n].Ended? && log[n].session == session
    && (if log[n].rc == NetError then ConnectEvents(log, n + 1, |log|) else |log| == n + 1)
  }

  /** The operation was sent last at index i with that answer, and a connect follows if and
      only if the network failed. */
  ghost predicate LastSent(log: seq<Event>, i: nat, e: Event) {
    && i < |log| && log[i] == e && e.Sent? && (forall j | i < j < |log| :: !log[j].Sent?)
    && (if e.rc == NetError then ConnectEvents(log, i + 1, |log|) else |log| == i + 1)
  }

  class SdbConn {
    var session: nat
    var nextSession: nat
    var transactionon: bool
    var log: seq<Event>

    /** `transactionon` says exactly that a transaction is open, and then it was
        begun in the current session. */
    ghost predicate Valid()
      reads this
    {
      && session < nextSession
      && InTheirTransaction(log)
      && OpenTxn(log) == if transactionon then session else -1
    }

    constructor ()
      ensures Valid() && !transactionon && log == []
    {
      session, nextSession, transactionon, log := 0, 1, false, [];
    }

    method Record(e: Event)
      requires InTheirTransaction(log)
      requires e.Sent? ==> OpenTxn(log) == if e.inTxn then e.session else -1
      modifies this`log
      ensures InTheirTransaction(log) && log == old(log) + [e]
      ensures OpenTxn(log) == After(OpenTxn(old(log)), e)
      ensures Sends(log) == Sends(old(log)) + if e.Sent? then 1 else 0
    {
      ExtendLog(log, e);
      log := log + [e];
    }

    method Connect() returns (rc: Rc)
      requires Valid()
      modifies this
      ensures Valid() && Sends(log) == Sends(old(log)) && old(log) <= log
      ensures Reconnects(log, |old(log)|, old(session), old(nextSession), session, rc)
      ensures transactionon <==> old(transactionon) && log[|old(log)|].ok
    {
      var isValid: bool := *;
      Record(Checked(isValid));
      if isValid {
        return Ok;
      }
      transactionon := false;
      var connected: bool := *;
      if !connected {
        Record(Lost);
        return NetError;
      }
      session := nextSession;
      nextSession := nextSession + 1;
      Record(Connected(session));
      rc := Ok;
    }

    method BeginTransaction() returns (rc: Rc)
      requires Valid()
      modifies this
      ensures Valid() && Sends(log) == Sends(old(log)) && old(log) <= log
      ensures rc == Ok <==> transactionon
      ensures if old(transactionon) then log == old(log) else Begins(log, |old(log)|, old(session), rc)
    {
      rc := Ok;
      var retryTimes := 2;
      while !transactionon
        invariant Valid() && Sends(log) == Sends(old(log)) && old(log) <= log
        invariant transactionon ==> rc == Ok
        invariant old(transactionon) ==> transactionon && log == old(log)
        invariant 1 <= retryTimes <= 2
        invariant !transactionon && retryTimes == 2 ==> log == old(log) && session == old(session)
        invariant retryTimes == 1 ==> !transactionon && ConnectEvents(log, |old(log)| + 1, |log|)
        invariant retryTimes == 1 ==> log[|old(log)|] == Began(old(session), NetError)
        invariant transactionon && !old(transactionon) ==> Begins(log, |old(log)|, old(session), rc)
        decreases !transactionon, retryTimes
      {
        rc := *;
        Record(Began(session, rc));
        if rc == Ok {
          transactionon := true;
          break;
        }
        retryTimes := if rc == NetError then retryTimes - 1 else retryTimes;
        if rc == NetError && retryTimes > 0 {
          var _ := Connect();
        } else {
          return;
        }
      }
    }

    method CommitTransaction() returns (rc: Rc)
      requires Valid()
      modifies this
      ensures Valid() && !transactionon && Sends(log) == Sends(old(log)) && old(log) <= log
      ensures !old(transactionon) ==> rc == Ok && log == old(log)
      ensures old(transactionon) ==> Ends(log, |old(log)|, old(session)) && rc == log[|old(log)|].rc
    {
      rc := Ok;
      if transactionon {
        transactionon := false;
        rc := *;
        Record(Ended(session, rc));
        if rc == NetError {
          var _ := Connect();
        }
      }
    }

    /** Rolling back always reports success. */
    method RollbackTransaction() returns (rc: Rc)
      requires Valid()
      modifies this
      ensures Valid() && !transactionon && rc == Ok && Sends(log) == Sends(old(log)) && old(log) <= log
      ensures !old(transactionon) ==> log == old(log)
      ensures old(transactionon) ==> Ends(log, |old(log)|, old(session))
    {
      if transactionon {
        transactionon := false;
        rc := *;
        Record(Ended(session, rc));
        if rc == NetError {
          var _ := Connect();
        }
      }
      rc := Ok;
    }

    /** The pattern of insert, update, del, query, truncate, drop, create_index and
        drop_index.  In a transaction the operation is sent exactly once; outside
        one at most three times, again only after a network error, and never into a
        transaction.  It gives up on a network error outside a transaction only after three
        sends or a reconnect that failed.  What is returned is what the last send
        answered. */
    method Operation(tolerant: bool) returns (rc: Rc, last: Event)
      requires Valid()
      modifies this
      ensures Valid() && old(log) <= log
      ensures old(transactionon) ==> Sends(log) == Sends(old(log)) + 1
      ensures Sends(old(log)) + 1 <= Sends(log) <= Sends(old(log)) + 3
      ensures |old(log)| < |log| && (old(transactionon) ==> log[|old(log)|] == last)
      ensures last.Sent? && last.inTxn == old(transactionon)
      ensures exists i :: |old(log)| <= i && LastSent(log, i, last)
      ensures rc == (if tolerant && last.rc == Benign then Ok else last.rc)
      ensures forall i | |old(log)| <= i < |log| && log[i].Sent? ::
                log[i].inTxn == old(transactionon) && (log[i] == last || log[i].rc == NetError)
      ensures last.rc == NetError && !old(transactionon) ==>
                Sends(log) == Sends(old(log)) + 3 || log[|log| - 1] == Lost
      ensures transactionon ==> old(transactionon)
    {
      var retryTimes := 2;
      while true
        invariant Valid() && old(log) <= log && 0 <= retryTimes <= 2
        invariant transactionon == old(transactionon)
        invariant Sends(log) == Sends(old(log)) + (2 - retryTimes)
        invariant transactionon ==> retryTimes == 2 && log == old(log)
        invariant forall i | |old(log)| <= i < |log| && log[i].Sent? :: !log[i].inTxn && log[i].rc == NetError
        decreases retryTimes
      {
        last := Attempt();
        ghost var at := |log| - 1;
        rc := if tolerant && last.rc == Benign then Ok else last.rc;
        if rc != NetError {
          assert LastSent(log, at, last);
          return;
        }
        var isTransaction := transactionon;
        var connected := Connect();
        if connected != Ok || isTransaction || retryTimes == 0 {
          assert LastSent(log, at, last);
          return;
        }
        retryTimes := retryTimes - 1;
      }
    }

    /** One send of the operation over the current session. */
    method Attempt() returns (e: Event)
      requires Valid()
      modifies this`log
      ensures Valid() && log == old(log) + [e] && e.Sent? && e.inTxn == transactionon && e.session == session
      ensures Sends(log) == Sends(old(log)) + 1 && log[|log| - 1] == e
    {
      var rc: Rc := *;
      e := Sent(session, transactionon, rc);
      Record(e);
    }

    /** Any run of calls, in any order, against any network; every operation is sent. */
    method Run(calls: seq<Call>)
      requires Valid()
      modifies this
      ensures Valid() && old(log) <= log
      ensures Sends(log) >= Sends(old(log)) + Ops(calls)
      ensures calls != [] && (calls[|calls| - 1].Commit? || calls[|calls| - 1].Rollback?) ==> !transactionon
    {
      var i := 0;
      while i < |calls|
        invariant 0 <= i <= |calls| && Valid() && old(log) <= log
        invariant Sends(log) >= Sends(old(log)) + Ops(calls[..i])
        invariant i > 0 && (calls[i - 1].Commit? || calls[i - 1].Rollback?) ==> !transactionon
      {
        assert calls[..i + 1][..i] == calls[..i];
        match calls[i] {
          case Begin => var _ := BeginTransaction();
          case Commit => var _ := CommitTransaction();
          case Rollback => var _ := RollbackTransaction();
          case Op(tolerant) => var _, _ := Operation(tolerant);
          case Reconnect => var _ := Connect();
        }
        i := i + 1;
      }
      assert calls[..i] == calls;
    }
  }

  datatype Call = Begin | Commit | Rollback | Op(tolerant: bool) | Reconnect

  function Ops(calls: seq<Call>): nat {
    if calls == [] then 0 else Ops(calls[..|calls| - 1]) + if calls[|calls| - 1].Op? then 1 else 0
  }

  /** In every log such a run produces, an operation sent in a transaction follows
      the BEGIN of its own session with nothing in between but operations of the
      same transaction and checks that found the connection valid. */
  lemma {:induction false} SentInOneUnbrokenTransaction(log: seq<Event>, i: nat) returns (b: nat)
    requires InTheirTransaction(log) && i < |log| && log[i].Sent? && log[i].inTxn
    ensures b < i && log[b] == Began(log[i].session, Ok)
    ensures forall k | b < k < i ::
              log[k] == Checked(true) || (log[k].Sent? && log[k].inTxn && log[k].session == log[i].session)
  {
    InTheirTransactionAt(log, i);
    b := OpenTxnMeansBegan(log[..i]);
    forall k | b < k < i && log[k].Sent? ensures log[k].inTxn && log[k].session == log[i].session {
      assert forall j | b < j < k :: log[j] == log[..i][j];
      StaysOpen(log, b, k);
      InTheirTransactionAt(log, k);
    }
    assert forall k | b < k < i :: log[k] == log[..i][k];
  }

  lemma {:induction false} StaysOpen(log: seq<Event>, b: nat, k: nat)
    requires b < k <= |log| && log[b].Began? && log[b].rc == Ok && forall j | b < j < k :: Quiet(log[j])
    ensures OpenTxn(log[..k]) == log[b].session
  {
    assert log[..k][..k - 1] == log[..k - 1];
    if k > b + 1 {
      StaysOpen(log, b, k - 1);
    }
  }
}
