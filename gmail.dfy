/**
 * The Gmail API as the labeller uses it. The service is an abstract provider:
 * what it answers to a call is chosen by the environment and handed to each
 * operation as a parameter; the service object records, in order, every call
 * that the program issues to it.
 */
module Gmail {
  import opened Wrappers

  /** Failures: anything the HTTP client reports, and an unknown label ID. */
  datatype Error = Transport(reason: string) | UnknownLabelId(id: string)

  type Reply<T> = Result<T, Error>

  /** One entry of the `Labels.List` answer. */
  datatype Label = Label(name: string, id: string)

  /** A request sent to the mail provider. */
  datatype Call =
    | ListLabels
    | CreateLabel(name: string)
    | ModifyMessage(msgID: string, addLabelIds: seq<string>, removeLabelIds: seq<string>)

  predicate IsCreate(c: Call) { c.CreateLabel? }

  predicate IsModify(c: Call) { c.ModifyMessage? }

  /** Number of requests of one kind (`IsCreate`, `IsModify`) in a request log. */
  function Count(calls: seq<Call>, kind: Call -> bool): (r: nat)
    ensures r <= |calls|
    ensures r == 0 <==> forall j | 0 <= j < |calls| :: !kind(calls[j])
  {
    if calls == [] then 0
    else (if kind(calls[0]) then 1 else 0) + Count(calls[1..], kind)
  }

  /** Counting is additive over a log that is extended. */
  lemma {:induction false} CountAppend(a: seq<Call>, b: seq<Call>, kind: Call -> bool)
    ensures Count(a + b, kind) == Count(a, kind) + Count(b, kind)
  {
    if a != [] {
      assert (a + b)[0] == a[0];
      assert (a + b)[1..] == a[1..] + b;
      CountAppend(a[1..], b, kind);
    } else {
      assert a + b == b;
    }
  }

  class Service {
    /** Every request issued so far, oldest first. */
    var calls: seq<Call>

    constructor ()
      ensures calls == []
    {
      calls := [];
    }

    /** `Users.Labels.List("me")`: answers `reply`. */
    method List(reply: Reply<seq<Label>>) returns (r: Reply<seq<Label>>)
      modifies this
      ensures r == reply
      ensures calls == old(calls) + [ListLabels]
    {
      calls := calls + [ListLabels];
      r := reply;
    }

    /** `Users.Labels.Create("me", {Name: name})`: answers the new ID or a failure. */
    method Create(name: string, reply: Reply<string>) returns (r: Reply<string>)
      modifies this
      ensures r == reply
      ensures calls == old(calls) + [CreateLabel(name)]
    {
      calls := calls + [CreateLabel(name)];
      r := reply;
    }

    /** `Users.Messages.Modify("me", msgID, ...)`; its answer is only ever printed. */
    method Modify(msgID: string, addLabelIds: seq<string>, removeLabelIds: seq<string>)
      modifies this
      ensures calls == old(calls) + [ModifyMessage(msgID, addLabelIds, removeLabelIds)]
    {
      calls := calls + [ModifyMessage(msgID, addLabelIds, removeLabelIds)];
    }
  }
}
