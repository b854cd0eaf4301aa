/** A batch of tool calls over one session, resumed once after a transport failure. */
module BatchCall {
  import opened Wrappers

  /** What a tool answers. */
  type Reply(==, 0)

  /** A tool invocation that went out, and its reply if one came back. */
  datatype Send = Send(call: nat, reply: Option<Reply>)

  datatype Outcome = Returned(results: seq<Reply>) | Raised | TimedOut

  /** How an await can end. */
  datatype Await = Fine | Failed | Expired

  /** A completed call is never sent again. */
  ghost predicate NoResend(log: seq<Send>) {
    forall i, j :: 0 <= i < j < |log| && log[i].reply.Some? ==> log[i].call != log[j].call
  }

  /** The other end, which may fail at any await, with or without having acted. */
  class Server {
    ghost var log: seq<Send>
    ghost var failures: nat   // awaits that failed
    ghost var expired: bool   // the time budget ended one

    constructor ()
      ensures log == [] && failures == 0 && !expired
    {
      log, failures, expired := [], 0, false;
    }

    method Opens() returns (how: Await)
      modifies this`failures, this`expired
      ensures failures == old(failures) + if how == Failed then 1 else 0
      ensures expired == (old(expired) || how == Expired)
    {
      how := *;
      Note(how);
    }

    ghost method Note(how: Await)
      modifies this`failures, this`expired
      ensures failures == old(failures) + if how == Failed then 1 else 0
      ensures expired == (old(expired) || how == Expired)
    {
      if how == Failed { failures := failures + 1; }
      if how == Expired { expired := true; }
    }

    /** The pause between the two sessions, which the time budget may end. */
    method Pause() returns (ended: bool)
      modifies this`expired
      ensures expired == (old(expired) || ended)
    {
      ended := *;
      if ended { expired := true; }
    }

    method CallTool(call: nat) returns (how: Await, reply: Option<Reply>)
      modifies this
      ensures how == Fine <==> reply.Some?
      ensures log == old(log) + [Send(call, reply)]
      ensures failures == old(failures) + if how == Failed then 1 else 0
      ensures expired == (old(expired) || how == Expired)
    {
      how := *;
      Note(how);
      var answer: Reply := *;
      reply := if how == Fine then Some(answer) else None;
      log := log + [Send(call, reply)];
    }
  }

  /** After `done` calls: their replies are in place, nothing else was answered, and `lost` sends got no reply. */
  ghost predicate Progress(n: nat, log: seq<Send>, results: seq<Option<Reply>>, done: nat, lost: nat) {
    && |results| == n && done <= n
    && (forall i :: 0 <= i < done ==> results[i].Some? && Send(i, results[i]) in log)
    && (forall s :: s in log && s.reply.Some? ==> s.call < done)
    && NoResend(log)
    && |log| == done + lost
  }

  function Upward(from: nat, to: nat): seq<nat>
    requires from <= to
  {
    seq(to - from, i requires 0 <= i < to - from => from + i)
  }

  /** One session: sends the remaining calls in order until one fails. */
  method Session(server: Server, n: nat, results0: seq<Option<Reply>>, remaining0: seq<nat>, ghost done0: nat,
                 ghost lost0: nat)
    returns (how: Await, results: seq<Option<Reply>>, remaining: seq<nat>, ghost done: nat, ghost lost: nat)
    requires Progress(n, server.log, results0, done0, lost0) && remaining0 == Upward(done0, n)
    modifies server
    ensures server.failures == old(server.failures) + if how == Failed then 1 else 0
    ensures server.expired == (old(server.expired) || how == Expired)
    ensures Progress(n, server.log, results, done, lost) && remaining == Upward(done, n)
    ensures done0 <= done && lost <= lost0 + 1 && (lost0 < lost ==> done < n)
    ensures how == Fine ==> done == n && lost == lost0
  {
    results, remaining, done, lost := results0, remaining0, done0, lost0;
    how := server.Opens();
    if how != Fine {
      return;
    }
    for k := 0 to |remaining0|
      invariant Progress(n, server.log, results, done, lost)
      invariant server.failures == old(server.failures) && server.expired == old(server.expired)
      invariant done == done0 + k && lost == lost0
      invariant remaining == Upward(done, n)
    {
      var index := remaining0[k];
      ghost var before := server.log;
      var reply;
      how, reply := server.CallTool(index);
      if how != Fine {
        lost := lost + 1;
        return;
      }
      results := results[index := reply];
      assert Send(index, reply) in server.log;
      assert forall i :: 0 <= i < done ==> Send(i, results[i]) in before;
      remaining := remaining[1..];
      done := done + 1;
    }
    how := server.Opens();
  }

  /**
   * All calls of a batch. Whatever fails, no completed call is sent twice and
   * at most one send is made in vain; a batch that returns holds the reply to
   * call i at position i. It gives up only after two failures, or when the
   * time budget ends.
   */
  method CallMany(server: Server, n: nat) returns (outcome: Outcome)
    requires server.log == [] && server.failures == 0 && !server.expired
    modifies server
    ensures outcome.Raised? ==> server.failures == 2
    ensures outcome.TimedOut? ==> server.expired
    ensures outcome.Returned? ==> server.failures <= 1 && !server.expired
    ensures NoResend(server.log)
    ensures |server.log| <= n + 1
    ensures outcome.Returned? ==> |outcome.results| == n
    ensures outcome.Returned? ==> forall i :: 0 <= i < n ==> Send(i, Some(outcome.results[i])) in server.log
    ensures n == 0 ==> outcome == Returned([]) && server.log == []
  {
    if n == 0 {
      return Returned([]);
    }
    var results: seq<Option<Reply>> := seq(n, _ => None);
    var remaining := Upward(0, n);
    ghost var done: nat, lost: nat := 0, 0;
    var attempt := 0;
    while attempt < 2
      invariant 0 <= attempt <= 2 && lost <= attempt && done + lost <= n + 1
      invariant Progress(n, server.log, results, done, lost) && remaining == Upward(done, n)
      invariant server.failures == attempt && !server.expired
    {
      var how;
      how, results, remaining, done, lost := Session(server, n, results, remaining, done, lost);
      if how == Fine {
        return Returned(seq(n, i requires 0 <= i < n => results[i].value));
      }
      if how == Expired {
        return TimedOut;
      }
      if attempt == 0 {
        var ended := server.Pause();
        if ended {
          return TimedOut;
        }
      }
      attempt := attempt + 1;
    }
    outcome := Raised;
  }
}
