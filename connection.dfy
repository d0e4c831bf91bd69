/**
 * The base `Connection` of process_link/connection.py: its construction rules,
 * the tag map that `new_tag` fills, the polled-tag list that
 * `update_polled_tags` and `remove_polled_tags` rewrite under the connection's
 * lock flag, `set_polling`, and the batch that one polling cycle builds.
 *
 * The background thread is not modelled: starting one is counted in the ghost
 * field `pollersStarted`, and the spin-wait on `thread_lock` becomes the
 * precondition that the flag is clear.
 */
module Connections {
  import opened Values
  import opened PolledTags

  /** A tag as its constructor built it. The base tag's own properties are
      whatever its constructor recorded; device families add a tag type and
      an address. */
  datatype Tag = Tag(attrs: Params, tagType: string, address: Option<Value>)

  /** A tag constructor: it receives the parameter dictionary and may fail. */
  type TagConstructor = Params -> Result<Tag>

  /** `TAG_TYPES`: only the `'local'` connection type is registered, bound to
      the base tag constructor. */
  function TagTypes(baseTag: TagConstructor): map<string, TagConstructor>
  {
    map["local" := baseTag]
  }

  /** The error `new_tag` reports for an exception of the tag constructor:
      a KeyError is caught and re-raised as "unknown type", anything else
      propagates unchanged. */
  function AsNewTagError(e: Error): Error
  {
    if e.KeyErrorRaised? then UnknownTagType(e.key) else e
  }

  /** The first required property a connection's parameters lack: `id` is
      looked up before `connection_type`. */
  function MissingRequired(params: Params): (missing: Option<string>)
    ensures missing == Nothing <==> "id" in params && "connection_type" in params
    ensures missing == Some("id") <==> "id" !in params
    ensures missing == Some("connection_type") <==> "id" in params && "connection_type" !in params
  {
    if "id" !in params then Some("id")
    else if "connection_type" !in params then Some("connection_type")
    else Nothing
  }

  /** The property names a local tag exposes. */
  function TagParameters(): (names: seq<string>)
    ensures |names| == 6 && names[|names| - 1] == "value"
  {
    ["id", "connection_id", "description", "datatype", "tag_type", "value"]
  }

  /** One sample of one tag in a polling cycle. */
  datatype Sample = Sample(value: Value, ts: int)

  /** `n` copies of one sample. */
  function Repeat(x: Sample, n: nat): (r: seq<Sample>)
    ensures |r| == n
    ensures forall k :: 0 <= k < |r| ==> r[k] == x
  {
    if n == 0 then [] else Repeat(x, n - 1) + [x]
  }

  /** The batch of one polling cycle: every polled id maps to one sample,
      read at the cycle's timestamp, per occurrence of the id in the list. */
  method BuildUpdates(polled: seq<TagId>, reading: Value, ts: int)
    returns (updates: map<TagId, seq<Sample>>)
    ensures forall t :: t in updates <==> t in polled
    ensures forall t :: t in updates ==>
      updates[t] == Repeat(Sample(reading, ts), Occurrences(polled, t))
    ensures Distinct(polled) ==> forall t :: t in updates ==> updates[t] == [Sample(reading, ts)]
  {
    var sample := Sample(reading, ts);
    updates := map[];
    for j := 0 to |polled|
      invariant forall t :: t in updates <==> t in polled[..j]
      invariant forall t :: t in updates ==>
        updates[t] == Repeat(sample, Occurrences(polled[..j], t))
    {
      var t := polled[j];
      assert polled[..j + 1][..j] == polled[..j];
      assert polled[..j + 1] == polled[..j] + [t];
      if !(t in updates) {
        OccurrencesSpec(polled[..j], t);
        updates := updates[t := []];
      }
      updates := updates[t := updates[t] + [sample]];
    }
    assert polled[..|polled|] == polled;
    if Distinct(polled) {
      forall t | t in updates
        ensures updates[t] == [sample]
      {
        OccurrencesSpec(polled, t);
      }
    }
  }

  class Connection {
    var id: Value
    var connectionType: string
    var description: Value
    var pollrate: Value
    var tags: map<Value, Tag>
    var polledTags: seq<TagId>
    /** The flag that keeps `polledTags` from changing while it is read or rewritten. */
    var threadLock: bool
    var polling: bool
    var conMan: bool
    /** How many polling threads `set_polling` has started. */
    ghost var pollersStarted: nat

    /** The state `__init__` leaves, given parameters holding `id` and
        `connection_type`: the type is forced to `"local"` whatever was passed,
        and the description and poll rate are taken verbatim when present. */
    ghost predicate Initialised(params: Params)
      reads this
    {
      "id" in params &&
      id == params["id"] && connectionType == "local" &&
      description == (if "description" in params then params["description"] else Str("")) &&
      pollrate == (if "pollrate" in params then params["pollrate"] else Real(0.5)) &&
      tags == map[] && polledTags == [] &&
      !threadLock && !polling && !conMan && pollersStarted == 0
    }

    constructor (params: Params)
      requires MissingRequired(params) == Nothing
      ensures Initialised(params)
    {
      id := params["id"];
      connectionType := "local";
      description := if "description" in params then params["description"] else Str("");
      tags := map[];
      pollrate := if "pollrate" in params then params["pollrate"] else Real(0.5);
      polledTags := [];
      threadLock := false;
      polling := false;
      conMan := false;
      pollersStarted := 0;
    }

    /** `set_polling`: a poller is started only when polling is asked for and
        was off; the flag then records the request. */
    method SetPolling(shouldPoll: bool)
      modifies this`polling, this`pollersStarted
      ensures polling == shouldPoll
      ensures pollersStarted == old(pollersStarted) + (if shouldPoll && !old(polling) then 1 else 0)
    {
      if shouldPoll && !polling {
        pollersStarted := pollersStarted + 1;
      }
      polling := shouldPoll;
    }

    /** `aquire_lock`: in a sequential run the flag must be clear, or the
        spin-wait never ends. */
    method AcquireLock()
      requires !threadLock
      modifies this`threadLock
      ensures threadLock
    {
      threadLock := true;
    }

    /** `new_tag`: writes the connection id into the caller's dictionary, builds
        the tag with the constructor registered for this connection's type,
        and files it under `params["id"]`. */
    method NewTag(params: ParamDict, baseTag: TagConstructor) returns (r: Result<Tag>)
      modifies this`tags, params
      ensures params.entries == old(params.entries)["connection_id" := id]
      ensures connectionType != "local" ==> r == Failure(UnknownTagType(connectionType))
      ensures connectionType == "local" && baseTag(params.entries).Failure? ==>
        r == Failure(AsNewTagError(baseTag(params.entries).error))
      ensures connectionType == "local" && baseTag(params.entries).Success? ==>
        r == (if "id" in params.entries then baseTag(params.entries) else Failure(UnknownTagType("id")))
      ensures r.Success? ==> "id" in params.entries && tags == old(tags)[params.entries["id"] := r.value]
      ensures r.Failure? ==> tags == old(tags)
    {
      params.entries := params.entries["connection_id" := id];
      var types := TagTypes(baseTag);
      if connectionType !in types {
        return Failure(UnknownTagType(connectionType));
      }
      var built := types[connectionType](params.entries);
      if built.Failure? {
        return Failure(AsNewTagError(built.error));
      }
      if "id" !in params.entries {
        return Failure(UnknownTagType("id"));
      }
      tags := tags[params.entries["id"] := built.value];
      r := Success(built.value);
    }

    /** One cycle of `poll`: wait for the lock, build the batch from the
        polled ids, release the lock. The batch is what the update sink gets. */
    method PollCycle(reading: Value, ts: int) returns (updates: map<TagId, seq<Sample>>)
      requires !threadLock
      modifies this`threadLock
      ensures !threadLock
      ensures forall t :: t in updates <==> t in polledTags
      ensures forall t :: t in updates ==>
        updates[t] == Repeat(Sample(reading, ts), Occurrences(polledTags, t))
      ensures Distinct(polledTags) ==> forall t :: t in updates ==> updates[t] == [Sample(reading, ts)]
    {
      AcquireLock();
      updates := BuildUpdates(polledTags, reading, ts);
      threadLock := false;
    }

    /** First loop of `update_polled_tags`. */
    method AppendMissingTags(sub: seq<TagId>)
      modifies this`polledTags
      ensures polledTags == AppendMissing(old(polledTags), sub)
    {
      ghost var start := polledTags;
      for j := 0 to |sub|
        invariant polledTags == AppendMissing(start, sub[..j])
      {
        assert sub[..j + 1][..j] == sub[..j];
        if !(sub[j] in polledTags) {
          polledTags := polledTags + [sub[j]];
        }
      }
      assert sub[..|sub|] == sub;
    }

    /** First loop of `remove_polled_tags`. */
    method RemoveListedTags(sub: seq<TagId>)
      modifies this`polledTags
      ensures polledTags == RemoveEach(old(polledTags), sub)
    {
      ghost var start := polledTags;
      for j := 0 to |sub|
        invariant polledTags == RemoveEach(start, sub[..j])
      {
        assert sub[..j + 1][..j] == sub[..j];
        if sub[j] in polledTags {
          polledTags := RemoveFirst(polledTags, sub[j]);
        }
      }
      assert sub[..|sub|] == sub;
    }

    /** Last loop of both methods as written: `pop(i)` for `i` from
        `len(hitlist) - 1` down to 0 drops the first `len(hitlist)` entries. */
    method PopHitlistAsWritten(hit: seq<nat>)
      requires |hit| <= |polledTags|
      modifies this`polledTags
      ensures polledTags == old(polledTags)[|hit|..]
    {
      ghost var a := polledTags;
      var i := |hit| - 1;
      while i >= 0
        invariant -1 <= i < |hit|
        invariant polledTags == a[..i + 1] + a[|hit|..]
        decreases i + 1
      {
        polledTags := polledTags[..i] + polledTags[i + 1..];
        i := i - 1;
      }
    }

    /** The corrected last loop: `pop(hitlist[i])` for `i` from
        `len(hitlist) - 1` down to 0 drops exactly the entries not in `sub`. */
    method PopHitlist(hit: seq<nat>, ghost sub: seq<TagId>)
      requires hit == Hitlist(polledTags, sub)
      modifies this`polledTags
      ensures polledTags == Keep(old(polledTags), sub)
    {
      ghost var a := polledTags;
      PopHitsStart(a, sub);
      var i := |hit| - 1;
      while i >= 0
        invariant -1 <= i < |hit|
        invariant Cut(hit, i) <= |a|
        invariant polledTags == a[..Cut(hit, i)] + Keep(a[Cut(hit, i)..], sub)
        decreases i + 1
      {
        PopHitsStep(a, sub, i, polledTags);
        polledTags := polledTags[..hit[i]] + polledTags[hit[i] + 1..];
        i := i - 1;
      }
      assert a[0..] == a;
    }

    /** `update_polled_tags` as written. Under the lock it appends the missing
        ids, collects the hitlist and pops the first `len(hitlist)` entries;
        polling then follows whether anything is left, and the lock is released. */
    method UpdatePolledTags(sub: seq<TagId>)
      requires !threadLock
      modifies this`polledTags, this`threadLock, this`polling, this`pollersStarted
      ensures polledTags == UpdatedAsWritten(old(polledTags), sub)
      ensures Distinct(old(polledTags)) ==> Distinct(polledTags)
      ensures polling == (|polledTags| > 0)
      ensures pollersStarted == old(pollersStarted) + (if polling && !old(polling) then 1 else 0)
      ensures !threadLock
    {
      if Distinct(polledTags) {
        UpdatedAsWrittenDistinct(polledTags, sub);
      }
      AcquireLock();
      AppendMissingTags(sub);
      var hit := CollectHitlist(polledTags, sub);
      PopHitlistAsWritten(hit);
      SetPolling(|polledTags| > 0);
      threadLock := false;
    }

    /** `update_polled_tags` with the pop loop corrected: the list becomes
        exactly the ids of `sub`, without duplicates when it had none. */
    method UpdatePolledTagsCorrected(sub: seq<TagId>)
      requires !threadLock
      modifies this`polledTags, this`threadLock, this`polling, this`pollersStarted
      ensures polledTags == UpdatedIntended(old(polledTags), sub)
      ensures forall t :: t in polledTags <==> t in sub
      ensures Distinct(old(polledTags)) ==> Distinct(polledTags)
      ensures polling == (|polledTags| > 0)
      ensures pollersStarted == old(pollersStarted) + (if polling && !old(polling) then 1 else 0)
      ensures !threadLock
    {
      UpdatedIntendedSpec(polledTags, sub);
      AcquireLock();
      AppendMissingTags(sub);
      var hit := CollectHitlist(polledTags, sub);
      PopHitlist(hit, sub);
      SetPolling(|polledTags| > 0);
      threadLock := false;
    }

    /** `remove_polled_tags` as written: the first loop removes the listed ids,
        then the hitlist loop and the pop loop of `update_polled_tags` run again;
        on a list without duplicates they empty it. */
    method RemovePolledTags(sub: seq<TagId>)
      requires !threadLock
      modifies this`polledTags, this`threadLock, this`polling, this`pollersStarted
      ensures polledTags == RemovedAsWritten(old(polledTags), sub)
      ensures Distinct(old(polledTags)) ==> polledTags == [] && !polling
      ensures polling == (|polledTags| > 0)
      ensures pollersStarted == old(pollersStarted) + (if polling && !old(polling) then 1 else 0)
      ensures !threadLock
    {
      if Distinct(polledTags) {
        RemovedAsWrittenClears(polledTags, sub);
      }
      AcquireLock();
      RemoveListedTags(sub);
      var hit := CollectHitlist(polledTags, sub);
      PopHitlistAsWritten(hit);
      SetPolling(|polledTags| > 0);
      threadLock := false;
    }

    /** `remove_polled_tags` as intended: only the listed ids are removed and
        the rest keep their order. */
    method RemovePolledTagsCorrected(sub: seq<TagId>)
      requires !threadLock
      modifies this`polledTags, this`threadLock, this`polling, this`pollersStarted
      ensures polledTags == RemoveEach(old(polledTags), sub)
      ensures Distinct(old(polledTags)) ==> polledTags == Exclude(old(polledTags), sub)
      ensures polling == (|polledTags| > 0)
      ensures pollersStarted == old(pollersStarted) + (if polling && !old(polling) then 1 else 0)
      ensures !threadLock
    {
      if Distinct(polledTags) {
        RemoveEachIsSubtraction(polledTags, sub);
      }
      AcquireLock();
      RemoveListedTags(sub);
      SetPolling(|polledTags| > 0);
      threadLock := false;
    }
  }

  /** Construction of a base connection: a missing `id` or `connection_type`
      raises PropertyError (the `id` is checked first); otherwise the new
      connection is in its initial state. */
  method NewConnection(params: Params) returns (r: Result<Connection>)
    ensures MissingRequired(params).Some? ==> r == Failure(MissingProperty(MissingRequired(params).value))
    ensures MissingRequired(params) == Nothing ==> r.Success? && fresh(r.value) && r.value.Initialised(params)
  {
    var missing := MissingRequired(params);
    if missing.Some? {
      return Failure(MissingProperty(missing.value));
    }
    var c := new Connection(params);
    r := Success(c);
  }

  /** Two `set_polling(True)` calls in a row start one poller at most, and
      none when polling was already on. */
  method SetPollingTwice(c: Connection)
    modifies c`polling, c`pollersStarted
    ensures c.polling
    ensures c.pollersStarted == old(c.pollersStarted) + (if old(c.polling) then 0 else 1)
  {
    c.SetPolling(true);
    c.SetPolling(true);
  }
}
