/**
 * The two host functions main.go registers with the rule engine, `add` and
 * `remove`, and the per-message context they read: the ID of the message
 * being processed. A script run is any sequence of calls to them; each call
 * resolves its label name through the cache and issues at most one modify
 * request, at once, for the current message.
 */
module Host {
  import opened Wrappers
  import opened Gmail
  import opened Labels
  import opened Address
  import opened Facts

  datatype Op = AddLabel | RemoveLabel

  /** The modify request for one label: `AddLabelIds = [id]` or `RemoveLabelIds = [id]`. */
  function Request(msgID: string, op: Op, id: string): Call
  {
    if op == AddLabel then ModifyMessage(msgID, [id], []) else ModifyMessage(msgID, [], [id])
  }

  /** What a host call leaves behind: the cache maps and the requests it issued. */
  datatype Effect = Effect(maps: Maps, calls: seq<Call>)

  /**
   * One `add(...)` or `remove(...)` call with the (inspected) arguments `args`:
   * anything but one argument is refused without a lookup; a failed lookup
   * sends nothing more; otherwise one modify request follows the lookup.
   */
  function HostCall(m: Maps, msgID: string, op: Op, args: seq<string>,
                    listReply: Reply<seq<Label>>, createReply: Reply<string>): Effect
  {
    if |args| != 1 then Effect(m, [])
    else
      var s := ResolveName(m, args[0], listReply, createReply);
      if s.result.Err? then Effect(s.maps, s.calls)
      else Effect(s.maps, s.calls + [Request(msgID, op, s.result.value)])
  }

  /** A label lookup never sends a modify request. */
  lemma ResolveNameSendsNoModification(m: Maps, name: string, listReply: Reply<seq<Label>>, createReply: Reply<string>)
    ensures Count(ResolveName(m, name, listReply, createReply).calls, IsModify) == 0
  {
    var p := Prepared(m, listReply);
    assert Count(p.calls, IsModify) == 0;
    CountAppend(p.calls, [CreateLabel(name)], IsModify);
  }

  /**
   * `add` and `remove`: with an argument count other than one, nothing happens;
   * a failed lookup sends no modify request; a successful one sends exactly one,
   * last, for the current message, with the resolved ID added or removed.
   */
  lemma HostCallRequests(m: Maps, msgID: string, op: Op, args: seq<string>,
                         listReply: Reply<seq<Label>>, createReply: Reply<string>)
    ensures var e := HostCall(m, msgID, op, args, listReply, createReply);
      |args| != 1 ==> e == Effect(m, [])
    ensures var e := HostCall(m, msgID, op, args, listReply, createReply);
      |args| == 1 ==>
        var s := ResolveName(m, args[0], listReply, createReply);
        && e.maps == s.maps
        && (s.result.Err? ==> Count(e.calls, IsModify) == 0)
        && (s.result.Ok? ==>
              && Count(e.calls, IsModify) == 1
              && e.calls[|e.calls| - 1] == Request(msgID, op, s.result.value))
    ensures forall c | c in HostCall(m, msgID, op, args, listReply, createReply).calls ::
      c.ModifyMessage? ==> c.msgID == msgID
    ensures Count(HostCall(m, msgID, op, args, listReply, createReply).calls, IsModify) <= 1
  {
    if |args| == 1 {
      var s := ResolveName(m, args[0], listReply, createReply);
      ResolveNameSendsNoModification(m, args[0], listReply, createReply);
      assert forall c | c in s.calls :: !c.ModifyMessage?;
      if s.result.Ok? {
        CountAppend(s.calls, [Request(msgID, op, s.result.value)], IsModify);
      }
    }
  }

  /** A host call keeps the cache consistent when the provider answers honestly. */
  lemma HostCallKeepsConsistent(m: Maps, msgID: string, op: Op, args: seq<string>,
                                listReply: Reply<seq<Label>>, createReply: Reply<string>)
    requires Consistent(m)
    requires HonestReplies(m, listReply, createReply)
    ensures Consistent(HostCall(m, msgID, op, args, listReply, createReply).maps)
  {
    if |args| == 1 {
      ResolveNameKeepsConsistent(m, args[0], listReply, createReply);
    }
  }

  /** One host call of a script, with the provider's answers to the requests it may send. */
  datatype Invocation = Invocation(op: Op, args: seq<string>, listReply: Reply<seq<Label>>, createReply: Reply<string>)

  /** The first `n` host calls of a script run, in order, each issued at once. */
  function Run(m: Maps, msgID: string, script: seq<Invocation>, n: nat): Effect
    requires n <= |script|
  {
    if n == 0 then Effect(m, [])
    else
      var e := Run(m, msgID, script, n - 1);
      var inv := script[n - 1];
      var f := HostCall(e.maps, msgID, inv.op, inv.args, inv.listReply, inv.createReply);
      Effect(f.maps, e.calls + f.calls)
  }

  /** A whole script run. */
  function RunEffect(m: Maps, msgID: string, script: seq<Invocation>): Effect
  {
    Run(m, msgID, script, |script|)
  }

  /** The provider answers every call of the script honestly, given the cache it meets. */
  ghost predicate Honest(m: Maps, msgID: string, script: seq<Invocation>)
  {
    forall n | 0 <= n < |script| ::
      HonestReplies(Run(m, msgID, script, n).maps, script[n].listReply, script[n].createReply)
  }

  /** Every modify request of the first `n` host calls is for the current message, at most one per call. */
  lemma {:induction false} ScriptTargetsCurrentMessage(m: Maps, msgID: string, script: seq<Invocation>, n: nat)
    requires n <= |script|
    ensures forall c | c in Run(m, msgID, script, n).calls :: c.ModifyMessage? ==> c.msgID == msgID
    ensures Count(Run(m, msgID, script, n).calls, IsModify) <= n
  {
    if n > 0 {
      ScriptTargetsCurrentMessage(m, msgID, script, n - 1);
      var e := Run(m, msgID, script, n - 1);
      var inv := script[n - 1];
      var f := HostCall(e.maps, msgID, inv.op, inv.args, inv.listReply, inv.createReply);
      HostCallRequests(e.maps, msgID, inv.op, inv.args, inv.listReply, inv.createReply);
      TargetsAppend(e.calls, f.calls, msgID, n - 1);
    }
  }

  /** Appending the requests of one call that targets `msgID` with at most one modify keeps both properties. */
  lemma TargetsAppend(a: seq<Call>, b: seq<Call>, msgID: string, k: nat)
    requires forall c | c in a :: c.ModifyMessage? ==> c.msgID == msgID
    requires forall c | c in b :: c.ModifyMessage? ==> c.msgID == msgID
    requires Count(a, IsModify) <= k && Count(b, IsModify) <= 1
    ensures forall c | c in a + b :: c.ModifyMessage? ==> c.msgID == msgID
    ensures Count(a + b, IsModify) <= k + 1
  {
    CountAppend(a, b, IsModify);
  }

  /** The first `n` host calls keep the cache consistent when the provider answers honestly throughout. */
  lemma {:induction false} ScriptKeepsConsistent(m: Maps, msgID: string, script: seq<Invocation>, n: nat)
    requires n <= |script|
    requires Consistent(m)
    requires Honest(m, msgID, script)
    ensures Consistent(Run(m, msgID, script, n).maps)
  {
    if n > 0 {
      ScriptKeepsConsistent(m, msgID, script, n - 1);
      var e := Run(m, msgID, script, n - 1);
      var inv := script[n - 1];
      HostCallKeepsConsistent(e.maps, msgID, inv.op, inv.args, inv.listReply, inv.createReply);
    }
  }

  /**
   * One message turn keeps the cache consistent: the label loop, under a
   * well-formed listing, and then a script run answered honestly.
   */
  lemma MessageTurnKeepsConsistent(m: Maps, ids: seq<string>, listReply: Reply<seq<Label>>,
                                   msgID: string, script: seq<Invocation>)
    requires Consistent(m)
    requires listReply.Ok? ==> WellFormed(listReply.value)
    requires Honest(LabelLoop(m, ids, listReply).maps, msgID, script)
    ensures Consistent(LabelLoop(m, ids, listReply).maps)
    ensures Consistent(RunEffect(LabelLoop(m, ids, listReply).maps, msgID, script).maps)
  {
    LabelLoopKeepsConsistent(m, ids, listReply);
    ScriptKeepsConsistent(LabelLoop(m, ids, listReply).maps, msgID, script, |script|);
  }

  /** One more host call extends the run: the cache and log after it are those of the run over one more call. */
  lemma RunStep(m: Maps, msgID: string, script: seq<Invocation>, i: nat, start: seq<Call>,
                st: Maps, calls: seq<Call>, st': Maps, calls': seq<Call>)
    requires i < |script|
    requires st == Run(m, msgID, script, i).maps && calls == start + Run(m, msgID, script, i).calls
    requires var inv := script[i];
      var f := HostCall(st, msgID, inv.op, inv.args, inv.listReply, inv.createReply);
      st' == f.maps && calls' == calls + f.calls
    ensures st' == Run(m, msgID, script, i + 1).maps
    ensures calls' == start + Run(m, msgID, script, i + 1).calls
  {
    var e := Run(m, msgID, script, i);
    var inv := script[i];
    var f := HostCall(e.maps, msgID, inv.op, inv.args, inv.listReply, inv.createReply);
    assert calls' == start + (e.calls + f.calls);
  }

  /** Requests made of listings and then of modifies for `msgID` send modifies only for `msgID`. */
  lemma ListingsThenTargeted(before: seq<Call>, listings: seq<Call>, run: seq<Call>, msgID: string)
    requires forall j | 0 <= j < |listings| :: listings[j] == ListLabels
    requires forall c | c in run :: c.ModifyMessage? ==> c.msgID == msgID
    ensures var all := before + listings + run;
      forall j | |before| <= j < |all| :: all[j].ModifyMessage? ==> all[j].msgID == msgID
  {
    var all := before + listings + run;
    forall j | |before| <= j < |all| ensures all[j].ModifyMessage? ==> all[j].msgID == msgID {
      if j < |before| + |listings| {
        assert all[j] == listings[j - |before|];
      } else {
        assert all[j] == run[j - |before| - |listings|];
        assert all[j] in run;
      }
    }
  }

  /** What `Users.Messages.Get` returns in the metadata format: the label IDs and the headers. */
  datatype Fetched = Fetched(labelIds: seq<string>, headers: seq<Header>)

  /** The fact record built from a fetched message, given the maps its label lookups settle on. */
  function Record(settled: Maps, fetched: Fetched, parse: MailParser): Message
    requires AllParse(parse, fetched.headers)
  {
    ReadHeaders(Blank, fetched.headers, parse).(labels := Known(settled.id2Labels, fetched.labelIds))
  }

  /** The package-level state the host functions use: the current message ID, the cache and the service. */
  class Labeller {
    var msgID: string
    const cache: LabelCache
    const srv: Service

    constructor (cache: LabelCache, srv: Service)
      ensures this.cache == cache && this.srv == srv && msgID == ""
    {
      this.cache := cache;
      this.srv := srv;
      msgID := "";
    }

    /** `add(name)`: attach the label to the current message, creating the label if needed. */
    method Add(args: seq<string>, listReply: Reply<seq<Label>>, createReply: Reply<string>)
      modifies cache, srv
      ensures var e := HostCall(old(cache.State()), msgID, AddLabel, args, listReply, createReply);
        cache.State() == e.maps && srv.calls == old(srv.calls) + e.calls
    {
      if |args| != 1 {
        return;
      }
      var str := args[0];
      var id := cache.GetLabelID(srv, str, listReply, createReply);
      if id.Err? {
        return;
      }
      srv.Modify(msgID, [id.value], []);
    }

    /** `remove(name)`: detach the label from the current message, creating the label if needed. */
    method Remove(args: seq<string>, listReply: Reply<seq<Label>>, createReply: Reply<string>)
      modifies cache, srv
      ensures var e := HostCall(old(cache.State()), msgID, RemoveLabel, args, listReply, createReply);
        cache.State() == e.maps && srv.calls == old(srv.calls) + e.calls
    {
      if |args| != 1 {
        return;
      }
      var str := args[0];
      var id := cache.GetLabelID(srv, str, listReply, createReply);
      if id.Err? {
        return;
      }
      srv.Modify(msgID, [], [id.value]);
    }

    /** One host call of the script: the rule engine calls `add` or `remove` with its arguments. */
    method Invoke(inv: Invocation)
      modifies cache, srv
      ensures var f := HostCall(old(cache.State()), msgID, inv.op, inv.args, inv.listReply, inv.createReply);
        cache.State() == f.maps && srv.calls == old(srv.calls) + f.calls
    {
      if inv.op == AddLabel {
        Add(inv.args, inv.listReply, inv.createReply);
      } else {
        Remove(inv.args, inv.listReply, inv.createReply);
      }
    }

    /** The rule engine's run: whatever sequence of host calls the script makes. */
    method RunScript(script: seq<Invocation>)
      modifies cache, srv
      ensures var e := RunEffect(old(cache.State()), msgID, script);
        cache.State() == e.maps && srv.calls == old(srv.calls) + e.calls
    {
      ghost var m0 := cache.State();
      ghost var start := srv.calls;
      for i := 0 to |script|
        invariant cache.State() == Run(m0, msgID, script, i).maps
        invariant srv.calls == start + Run(m0, msgID, script, i).calls
      {
        ghost var st := cache.State();
        ghost var calls := srv.calls;
        Invoke(script[i]);
        RunStep(m0, msgID, script, i, start, st, calls, cache.State(), srv.calls);
      }
    }

    /**
     * One turn of the message loop: bind the message ID, skip a message whose
     * fetch failed, otherwise build its record (labels, then headers) and run
     * the script. The cache and the requests are those of the label loop
     * followed by the script run, and every modify request is for this message.
     */
    method Process(entryId: string, fetched: Reply<Fetched>, parse: MailParser,
                   listReply: Reply<seq<Label>>, script: seq<Invocation>) returns (data: Option<Message>)
      requires fetched.Ok? ==> AllParse(parse, fetched.value.headers)
      modifies this, cache, srv
      ensures msgID == entryId
      ensures fetched.Err? ==> data == None && cache.State() == old(cache.State()) && srv.calls == old(srv.calls)
      ensures fetched.Ok? ==> data == Some(Record(Settled(old(cache.State()), listReply), fetched.value, parse))
      ensures fetched.Ok? ==>
        var l := LabelLoop(old(cache.State()), fetched.value.labelIds, listReply);
        var e := RunEffect(l.maps, entryId, script);
        cache.State() == e.maps && srv.calls == old(srv.calls) + l.calls + e.calls
      ensures fetched.Ok? ==>
        var l := LabelLoop(old(cache.State()), fetched.value.labelIds, listReply);
        (Consistent(old(cache.State())) && (listReply.Ok? ==> WellFormed(listReply.value)) &&
         Honest(l.maps, entryId, script)) ==> Consistent(cache.State())
      // a corollary of the clauses above: the log only grows
      ensures |srv.calls| >= |old(srv.calls)| && srv.calls[..|old(srv.calls)|] == old(srv.calls)
      ensures forall j | |old(srv.calls)| <= j < |srv.calls| ::
        srv.calls[j].ModifyMessage? ==> srv.calls[j].msgID == entryId
    {
      msgID := entryId;
      if fetched.Err? {
        return None;
      }
      var msg := fetched.value;
      ghost var m0 := cache.State();
      ghost var l := LabelLoop(m0, msg.labelIds, listReply);
      var names := PopulateLabels(cache, srv, msg.labelIds, listReply);
      LabelLoopSettles(m0, msg.labelIds, listReply);
      LabelsUntouched(names, msg.headers, parse);
      var record := PopulateHeaders(Blank.(labels := names), msg.headers, parse);
      ghost var e := RunEffect(l.maps, entryId, script);
      RunScript(script);
      ScriptTargetsCurrentMessage(l.maps, entryId, script, |script|);
      ListingsThenTargeted(old(srv.calls), l.calls, e.calls, entryId);
      if Consistent(m0) && (listReply.Ok? ==> WellFormed(listReply.value)) && Honest(l.maps, entryId, script) {
        MessageTurnKeepsConsistent(m0, msg.labelIds, listReply, entryId, script);
      }
      return Some(record);
    }
  }
}
