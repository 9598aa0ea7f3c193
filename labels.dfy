/**
 * The label cache of labels.go: two maps, label name to ID and ID to name,
 * filled from one bulk listing the first time a lookup finds `labels2ID`
 * empty, and extended when a name lookup has to create a missing label.
 *
 * The pure functions below give the effect of each operation on the pair of
 * maps (`Maps`), the value returned and the requests sent to the provider;
 * the class `LabelCache` holds the two maps as fields and its methods are
 * proved to follow those functions. The lemmas state what the cache promises.
 */
module Labels {
  import opened Wrappers
  import opened Gmail

  datatype Maps = Maps(labels2ID: map<string, string>, id2Labels: map<string, string>)

  /** Both maps freshly made (or never made: a nil map also has length 0). */
  const Empty: Maps := Maps(map[], map[])

  /** What one operation leaves behind: the maps, its result, the requests it issued. */
  datatype Step<T> = Step(maps: Maps, result: Reply<T>, calls: seq<Call>)

  /** Go's map index: the stored value, or the zero value "" when absent. */
  function Lookup(m: map<string, string>, key: string): string
  {
    if key in m then m[key] else ""
  }

  /** The maps after storing each listed label in turn: later entries overwrite earlier ones. */
  function Stored(m: Maps, labels: seq<Label>): Maps
    decreases |labels|
  {
    if labels == [] then m
    else
      var p := Stored(m, labels[..|labels| - 1]);
      var l := labels[|labels| - 1];
      Maps(p.labels2ID[l.name := l.id], p.id2Labels[l.id := l.name])
  }

  /** The maps after `LoadLabels`: reset first, then filled only if the listing succeeded. */
  function Loaded(reply: Reply<seq<Label>>): Maps
  {
    if reply.Ok? then Stored(Empty, reply.value) else Empty
  }

  /** The lazy-load prelude shared by both lookups: reload whenever `labels2ID` is empty. */
  function Prepared(m: Maps, listReply: Reply<seq<Label>>): Step<()>
  {
    if |m.labels2ID| != 0 then Step(m, Ok(()), [])
    else if listReply.Err? then Step(Empty, Err(listReply.error), [ListLabels])
    else Step(Loaded(listReply), Ok(()), [ListLabels])
  }

  /** The maps a lookup consults once the prelude has run. */
  function Settled(m: Maps, listReply: Reply<seq<Label>>): Maps
  {
    Prepared(m, listReply).maps
  }

  /** `getLabelID`: name to ID, creating the label when the name has no non-empty ID. */
  function ResolveName(m: Maps, name: string, listReply: Reply<seq<Label>>, createReply: Reply<string>): Step<string>
  {
    var p := Prepared(m, listReply);
    if p.result.Err? then Step(p.maps, Err(p.result.error), p.calls)
    else
      var found := Lookup(p.maps.labels2ID, name);
      if |found| > 0 then Step(p.maps, Ok(found), p.calls)
      else if createReply.Err? then Step(p.maps, Err(createReply.error), p.calls + [CreateLabel(name)])
      else
        var id := createReply.value;
        Step(Maps(p.maps.labels2ID[name := id], p.maps.id2Labels[id := name]), Ok(id), p.calls + [CreateLabel(name)])
  }

  /** `getLabelById`: ID to name; never creates anything. */
  function ResolveId(m: Maps, id: string, listReply: Reply<seq<Label>>): Step<string>
  {
    var p := Prepared(m, listReply);
    if p.result.Err? then Step(p.maps, Err(p.result.error), p.calls)
    else
      var found := Lookup(p.maps.id2Labels, id);
      if |found| > 0 then Step(p.maps, Ok(found), p.calls)
      else Step(p.maps, Err(UnknownLabelId(id)), p.calls)
  }

  // ---------------------------------------------------------------------------
  // Consistency of the two maps

  /** Each map is the other one turned around. */
  ghost predicate Mirror(m: Maps)
  {
    && (forall n | n in m.labels2ID ::
          m.labels2ID[n] in m.id2Labels && m.id2Labels[m.labels2ID[n]] == n)
    && (forall i | i in m.id2Labels ::
          m.id2Labels[i] in m.labels2ID && m.labels2ID[m.id2Labels[i]] == i)
  }

  /** Mirror images, and no label has the empty ID (Gmail never assigns one). */
  ghost predicate Consistent(m: Maps)
  {
    Mirror(m) && "" !in m.id2Labels
  }

  /** A listing whose names are distinct and whose IDs are distinct. */
  ghost predicate Distinct(labels: seq<Label>)
  {
    forall i, j | 0 <= i < j < |labels| ::
      labels[i].name != labels[j].name && labels[i].id != labels[j].id
  }

  /** A listing as Gmail gives it: distinct names, distinct and non-empty IDs. */
  ghost predicate WellFormed(labels: seq<Label>)
  {
    Distinct(labels) && forall i | 0 <= i < |labels| :: labels[i].id != ""
  }

  /** The provider answers a listing with a well-formed one, and a creation with a new, non-empty ID. */
  ghost predicate HonestReplies(m: Maps, listReply: Reply<seq<Label>>, createReply: Reply<string>)
  {
    && (listReply.Ok? ==> WellFormed(listReply.value))
    && (createReply.Ok? ==> createReply.value != "" && createReply.value !in Settled(m, listReply).id2Labels)
  }

  /** Storing a listing, whatever its shape, keys the maps by exactly the listed names and IDs. */
  lemma {:induction false} StoredKeys(labels: seq<Label>)
    ensures Stored(Empty, labels).labels2ID.Keys == set i | 0 <= i < |labels| :: labels[i].name
    ensures Stored(Empty, labels).id2Labels.Keys == set i | 0 <= i < |labels| :: labels[i].id
  {
    if labels != [] {
      var n := |labels| - 1;
      var prefix := labels[..n];
      StoredKeys(prefix);
      assert forall i | 0 <= i < n :: prefix[i] == labels[i];
      var names := set i | 0 <= i < |labels| :: labels[i].name;
      var ids := set i | 0 <= i < |labels| :: labels[i].id;
      assert names == (set i | 0 <= i < n :: prefix[i].name) + {labels[n].name};
      assert ids == (set i | 0 <= i < n :: prefix[i].id) + {labels[n].id};
    }
  }

  /** A listing with distinct names and IDs is stored name-to-ID and ID-to-name. */
  lemma {:induction false} StoredEntries(labels: seq<Label>)
    requires Distinct(labels)
    ensures var m := Stored(Empty, labels);
      forall i | 0 <= i < |labels| ::
        && labels[i].name in m.labels2ID && m.labels2ID[labels[i].name] == labels[i].id
        && labels[i].id in m.id2Labels && m.id2Labels[labels[i].id] == labels[i].name
  {
    if labels != [] {
      var n := |labels| - 1;
      var prefix := labels[..n];
      assert forall i | 0 <= i < n :: prefix[i] == labels[i];
      StoredEntries(prefix);
      var m := Stored(Empty, labels);
      forall i | 0 <= i < |labels|
        ensures labels[i].name in m.labels2ID && m.labels2ID[labels[i].name] == labels[i].id
        ensures labels[i].id in m.id2Labels && m.id2Labels[labels[i].id] == labels[i].name
      {
        if i < n {
          assert labels[i].name != labels[n].name && labels[i].id != labels[n].id;
        }
      }
    }
  }

  /** A listing with distinct names and IDs, empty IDs included, loads into mirror-image maps. */
  lemma StoredMirror(labels: seq<Label>)
    requires Distinct(labels)
    ensures Mirror(Stored(Empty, labels))
  {
    var m := Stored(Empty, labels);
    StoredEntries(labels);
    StoredKeys(labels);
    forall k | k in m.labels2ID
      ensures m.labels2ID[k] in m.id2Labels && m.id2Labels[m.labels2ID[k]] == k
    {
      var i :| 0 <= i < |labels| && labels[i].name == k;
    }
    forall k | k in m.id2Labels
      ensures m.id2Labels[k] in m.labels2ID && m.labels2ID[m.id2Labels[k]] == k
    {
      var i :| 0 <= i < |labels| && labels[i].id == k;
    }
  }

  /** The maps loaded from a well-formed listing are consistent: mirror images with no empty ID. */
  lemma StoredConsistent(labels: seq<Label>)
    requires WellFormed(labels)
    ensures Consistent(Stored(Empty, labels))
  {
    StoredMirror(labels);
    StoredKeys(labels);
  }

  /** Under the mirror invariant an empty `labels2ID` means an empty cache. */
  lemma MirrorEmpty(m: Maps)
    requires Mirror(m) && |m.labels2ID| == 0
    ensures m == Empty
  {
    assert m.labels2ID == map[];
  }

  /** A loaded cache with a non-empty ID for `name` answers it with no request and no change. */
  lemma ResolveNameHit(m: Maps, name: string, listReply: Reply<seq<Label>>, createReply: Reply<string>)
    requires name in m.labels2ID && m.labels2ID[name] != ""
    ensures ResolveName(m, name, listReply, createReply) == Step(m, Ok(m.labels2ID[name]), [])
  {
  }

  /**
   * A miss issues exactly one creation; on success the new ID is returned and
   * stored both ways, and nothing else changes; on failure nothing is stored.
   */
  lemma ResolveNameMiss(m: Maps, name: string, listReply: Reply<seq<Label>>, createReply: Reply<string>)
    requires Prepared(m, listReply).result.Ok?
    requires Lookup(Settled(m, listReply).labels2ID, name) == ""
    ensures var s := ResolveName(m, name, listReply, createReply);
      && s.calls == Prepared(m, listReply).calls + [CreateLabel(name)]
      && Count(s.calls, IsCreate) == 1
      && (createReply.Ok? ==>
            && s.result == Ok(createReply.value)
            && s.maps.labels2ID == Settled(m, listReply).labels2ID[name := createReply.value]
            && s.maps.id2Labels == Settled(m, listReply).id2Labels[createReply.value := name])
      && (createReply.Err? ==> s.result == Err(createReply.error) && s.maps == Settled(m, listReply))
  {
    var s := ResolveName(m, name, listReply, createReply);
    assert Count(Prepared(m, listReply).calls, IsCreate) == 0;
    CountAppend(Prepared(m, listReply).calls, [CreateLabel(name)], IsCreate);
  }

  /** Both lookups reload when `labels2ID` is empty; a failed listing is returned and leaves the maps empty. */
  lemma LookupsReload(m: Maps, name: string, id: string, listReply: Reply<seq<Label>>, createReply: Reply<string>)
    requires |m.labels2ID| == 0
    ensures var s := ResolveName(m, name, listReply, createReply);
      |s.calls| > 0 && s.calls[0] == ListLabels
    ensures var s := ResolveId(m, id, listReply);
      |s.calls| > 0 && s.calls[0] == ListLabels
    ensures listReply.Err? ==>
      && ResolveName(m, name, listReply, createReply) == Step(Empty, Err(listReply.error), [ListLabels])
      && ResolveId(m, id, listReply) == Step(Empty, Err(listReply.error), [ListLabels])
  {
  }

  /**
   * A failed name lookup, on any maps, stores nothing beyond what its own
   * reload stored: a loaded cache is left as it was, whatever its shape, and
   * so is an empty one whose listing failed. Mirror maps with an empty
   * `labels2ID` are empty, so for them a failed listing changes nothing either.
   */
  lemma ResolveNameFailureKeepsMaps(m: Maps, name: string, listReply: Reply<seq<Label>>, createReply: Reply<string>)
    requires ResolveName(m, name, listReply, createReply).result.Err?
    ensures ResolveName(m, name, listReply, createReply).maps == Settled(m, listReply)
    ensures |m.labels2ID| != 0 ==> ResolveName(m, name, listReply, createReply).maps == m
    ensures listReply.Err? && m.id2Labels == map[] ==> ResolveName(m, name, listReply, createReply).maps == m
    ensures listReply.Err? && Mirror(m) ==> ResolveName(m, name, listReply, createReply).maps == m
  {
    if |m.labels2ID| == 0 {
      assert m.labels2ID == map[];
      if Mirror(m) {
        MirrorEmpty(m);
      }
    }
  }

  /** A name lookup keeps the cache consistent when the provider answers honestly. */
  lemma ResolveNameKeepsConsistent(m: Maps, name: string, listReply: Reply<seq<Label>>, createReply: Reply<string>)
    requires Consistent(m)
    requires HonestReplies(m, listReply, createReply)
    ensures Consistent(ResolveName(m, name, listReply, createReply).maps)
  {
    var p := Settled(m, listReply);
    if |m.labels2ID| == 0 && listReply.Ok? {
      StoredConsistent(listReply.value);
    }
    assert Consistent(p);
    var s := ResolveName(m, name, listReply, createReply);
    if Prepared(m, listReply).result.Ok? && Lookup(p.labels2ID, name) == "" && createReply.Ok? {
      var id := createReply.value;
      assert name !in p.labels2ID;
      var q := s.maps;
      assert q == Maps(p.labels2ID[name := id], p.id2Labels[id := name]);
      forall k | k in q.labels2ID
        ensures q.labels2ID[k] in q.id2Labels && q.id2Labels[q.labels2ID[k]] == k
      {
        if k != name {
          assert p.labels2ID[k] != id;
        }
      }
      forall k | k in q.id2Labels
        ensures q.id2Labels[k] in q.labels2ID && q.labels2ID[q.id2Labels[k]] == k
      {
        if k != id {
          assert p.id2Labels[k] != name;
        }
      }
    }
  }

  /**
   * Resolving the same name twice: once the first call has produced a
   * non-empty ID, the second returns that ID, changes nothing and sends no
   * request, so the label is created at most once.
   */
  lemma ResolveNameIdempotent(m: Maps, name: string, listReply1: Reply<seq<Label>>, createReply1: Reply<string>,
                              listReply2: Reply<seq<Label>>, createReply2: Reply<string>)
    requires ResolveName(m, name, listReply1, createReply1).result.Ok?
    requires ResolveName(m, name, listReply1, createReply1).result.value != ""
    ensures var first := ResolveName(m, name, listReply1, createReply1);
      && ResolveName(first.maps, name, listReply2, createReply2) == Step(first.maps, first.result, [])
      && Count(first.calls, IsCreate) <= 1
  {
    var first := ResolveName(m, name, listReply1, createReply1);
    var p := Prepared(m, listReply1);
    assert Count(p.calls, IsCreate) == 0;
    if Lookup(p.maps.labels2ID, name) == "" {
      CountAppend(p.calls, [CreateLabel(name)], IsCreate);
    }
    assert name in first.maps.labels2ID;
  }

  /** Why the proviso above is needed: a label created with the empty ID is created again on the next lookup. */
  lemma EmptyIdIsCreatedAgain(m: Maps, name: string, listReply1: Reply<seq<Label>>,
                              listReply2: Reply<seq<Label>>, createReply2: Reply<string>)
    requires |m.labels2ID| != 0 && Lookup(m.labels2ID, name) == ""
    ensures var first := ResolveName(m, name, listReply1, Ok(""));
      && first.result == Ok("")
      && CreateLabel(name) in ResolveName(first.maps, name, listReply2, createReply2).calls
  {
  }

  /**
   * An ID lookup on a loaded cache changes nothing and sends nothing; it
   * succeeds exactly when the ID is stored with a non-empty name, which it returns.
   */
  lemma ResolveIdLoaded(m: Maps, id: string, listReply: Reply<seq<Label>>)
    requires |m.labels2ID| != 0
    ensures var s := ResolveId(m, id, listReply);
      && s.maps == m && s.calls == []
      && (s.result.Ok? <==> id in m.id2Labels && m.id2Labels[id] != "")
      && (s.result.Ok? ==> s.result.value == m.id2Labels[id])
      && (s.result.Err? ==> s.result.error == UnknownLabelId(id))
  {
  }

  /**
   * Any ID lookup leaves the settled maps and settles them for good: a second
   * prelude against them changes nothing; only listings are requested; it
   * finds the ID's name in the settled maps when it is non-empty.
   */
  lemma ResolveIdSettles(m: Maps, id: string, listReply: Reply<seq<Label>>)
    ensures var s := ResolveId(m, id, listReply);
      && s.maps == Settled(m, listReply)
      && Settled(s.maps, listReply) == s.maps
      && (forall j | 0 <= j < |s.calls| :: s.calls[j] == ListLabels)
      && (s.result.Ok? <==> |Lookup(s.maps.id2Labels, id)| > 0)
      && (s.result.Ok? ==> s.result.value == Lookup(s.maps.id2Labels, id))
  {
    if |m.labels2ID| == 0 && listReply.Err? {
      assert Lookup(Empty.id2Labels, id) == "";
    }
  }

  /** An ID lookup keeps the cache consistent when the listing it may reload is well-formed. */
  lemma ResolveIdKeepsConsistent(m: Maps, id: string, listReply: Reply<seq<Label>>)
    requires Consistent(m)
    requires listReply.Ok? ==> WellFormed(listReply.value)
    ensures Consistent(ResolveId(m, id, listReply).maps)
  {
    if |m.labels2ID| == 0 && listReply.Ok? {
      StoredConsistent(listReply.value);
    }
  }

  // ---------------------------------------------------------------------------
  // The two package-level maps

  class LabelCache {
    var labels2ID: map<string, string>
    var id2Labels: map<string, string>

    function State(): Maps
      reads this
    {
      Maps(labels2ID, id2Labels)
    }

    /** The maps before anything is loaded. */
    constructor ()
      ensures State() == Empty
    {
      labels2ID := map[];
      id2Labels := map[];
    }

    /** Reset both maps, list the labels, and store each listed label both ways. */
    method LoadLabels(srv: Service, reply: Reply<seq<Label>>) returns (err: Option<Error>)
      modifies this, srv
      ensures State() == Loaded(reply)
      ensures reply.Err? ==> State() == Empty && err == Some(reply.error)
      ensures reply.Ok? ==> err == None
      ensures srv.calls == old(srv.calls) + [ListLabels]
    {
      labels2ID := map[];
      id2Labels := map[];
      var r := srv.List(reply);
      if r.Err? {
        return Some(r.error);
      }
      var labels := r.value;
      for i := 0 to |labels|
        invariant State() == Stored(Empty, labels[..i])
        invariant srv.calls == old(srv.calls) + [ListLabels]
      {
        assert labels[..i + 1][..i] == labels[..i];
        labels2ID := labels2ID[labels[i].name := labels[i].id];
        id2Labels := id2Labels[labels[i].id := labels[i].name];
      }
      assert labels[..|labels|] == labels;
      return None;
    }

    /** `getLabelID`: the ID of `name`, creating the label when it is missing. */
    method GetLabelID(srv: Service, name: string, listReply: Reply<seq<Label>>, createReply: Reply<string>)
      returns (r: Reply<string>)
      modifies this, srv
      ensures var s := ResolveName(old(State()), name, listReply, createReply);
        State() == s.maps && r == s.result && srv.calls == old(srv.calls) + s.calls
    {
      if |labels2ID| == 0 {
        var err := LoadLabels(srv, listReply);
        if err.Some? {
          return Err(err.value);
        }
      }
      var found := Lookup(labels2ID, name);
      if |found| > 0 {
        return Ok(found);
      }
      var created := srv.Create(name, createReply);
      if created.Err? {
        return Err(created.error);
      }
      labels2ID := labels2ID[name := created.value];
      id2Labels := id2Labels[created.value := name];
      return Ok(created.value);
    }

    /** `getLabelById`: the name of label `id`; an unknown ID is an error. */
    method GetLabelById(srv: Service, id: string, listReply: Reply<seq<Label>>) returns (r: Reply<string>)
      modifies this, srv
      ensures var s := ResolveId(old(State()), id, listReply);
        State() == s.maps && r == s.result && srv.calls == old(srv.calls) + s.calls
    {
      if |labels2ID| == 0 {
        var err := LoadLabels(srv, listReply);
        if err.Some? {
          return Err(err.value);
        }
      }
      var found := Lookup(id2Labels, id);
      if |found| > 0 {
        return Ok(found);
      }
      return Err(UnknownLabelId(id));
    }
  }
}
