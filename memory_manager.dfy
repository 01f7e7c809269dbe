/**
 * `EnhancedMemoryManager`: per-session working memory, batch ingestion of
 * message fragments and top-k retrieval of relevant memories. The database
 * is an oracle: the outcome of each insert and of the fetch are inputs.
 */
module MemoryManager {
  import opened Wrappers
  import opened ActivityTypes
  import opened MemoryHeuristics
  import opened Memories
  import opened WorkingMemory

  /** Every working-memory queue is created with room for seven entries. */
  const WorkingMemorySize: nat := 7

  datatype UserProfile = UserProfile(userId: string, email: string, firstName: string, lastName: string, createdAt: string)

  /** The outcome of reading the persisted memories: an error, or the rows returned (of any session). */
  datatype Fetch = FetchError | Fetched(rows: seq<Memory>)

  /** `getProductivityScore`: the type's weight; every type has one, so the 0.2 fallback never applies. */
  function ProductivityScore(t: ActivityType): (r: real)
    ensures 0.2 <= r <= 1.0
    ensures r <= 0.2 <==> t == Entertainment
    ensures r >= 0.8 <==> t == Work || t == Development || t == Learning
  {
    WeightTenths(t) as real / 10.0
  }

  /** The memory built for one fragment: its concepts, the type inferred from them, its valence and the type's weight. */
  function ProcessMessage(content: string, timestamp: int, importance: real): Memory {
    var keyConcepts := ExtractKeyConcepts(content);
    var activityType := InferredType(keyConcepts);
    Memory(timestamp, content, importance, AnalyzeEmotionalContent(content), keyConcepts, activityType,
           ProductivityScore(activityType))
  }

  /** The per-fragment processing of one `addMemory` call: one timestamp and one importance for the whole batch. */
  function Ingest(timestamp: int, importance: real): string -> Memory {
    c => ProcessMessage(c, timestamp, importance)
  }

  /** Every memory `Ingest` builds carries the batch's timestamp and importance and its type's weight. */
  lemma IngestShared(timestamp: int, importance: real, c: string)
    ensures var m := Ingest(timestamp, importance)(c);
      m.timestamp == timestamp && m.importance == importance && m.content == c &&
      m.activityType == InferredType(m.keyConcepts) &&
      m.productivityScore == ProductivityScore(m.activityType) && -1.0 < m.emotionalValence < 1.0 &&
      |m.keyConcepts| <= MaxConcepts
  {
    ExtractKeyConceptsSpec(c);
  }

  /** The memories `addMemory` returns: `process` of each fragment whose insert succeeded, in input order. */
  function Processed(messages: seq<string>, inserted: seq<bool>, process: string -> Memory): seq<Memory>
    requires |inserted| == |messages|
    decreases |messages|
  {
    if messages == [] then []
    else
      var n := |messages| - 1;
      Processed(messages[..n], inserted[..n], process) + (if inserted[n] then [process(messages[n])] else [])
  }

  /** Processing one more fragment adds its memory exactly when its insert succeeded. */
  lemma ProcessedSnoc(messages: seq<string>, inserted: seq<bool>, c: string, b: bool, process: string -> Memory)
    requires |inserted| == |messages|
    ensures Processed(messages + [c], inserted + [b], process)
      == Processed(messages, inserted, process) + (if b then [process(c)] else [])
  {
    assert (messages + [c])[..|messages|] == messages;
    assert (inserted + [b])[..|inserted|] == inserted;
  }

  /** One turn of the ingestion loop keeps the processed memories equal to Processed of the fragments seen. */
  lemma ProcessedStep(messages: seq<string>, inserted: seq<bool>, i: nat, processed: seq<Memory>, m: Memory,
                      process: string -> Memory)
    requires |inserted| == |messages| && i < |messages|
    requires processed == Processed(messages[..i], inserted[..i], process) && m == process(messages[i])
    ensures (if inserted[i] then processed + [m] else processed) == Processed(messages[..i + 1], inserted[..i + 1], process)
  {
    ProcessedSnoc(messages[..i], inserted[..i], messages[i], inserted[i], process);
    assert messages[..i + 1] == messages[..i] + [messages[i]];
    assert inserted[..i + 1] == inserted[..i] + [inserted[i]];
  }

  /** The fragments whose insert succeeded, in input order. */
  function Kept(messages: seq<string>, inserted: seq<bool>): (r: seq<string>)
    requires |inserted| == |messages|
    ensures |r| <= |messages|
    ensures forall c :: c in r ==> c in messages
  {
    if messages == [] then []
    else (if inserted[0] then [messages[0]] else []) + Kept(messages[1..], inserted[1..])
  }

  /** `process` applied to each content, in order. */
  function ProcessAll(contents: seq<string>, process: string -> Memory): (r: seq<Memory>)
    ensures |r| == |contents|
    ensures forall k :: 0 <= k < |r| ==> r[k] == process(contents[k])
  {
    if contents == [] then [] else [process(contents[0])] + ProcessAll(contents[1..], process)
  }

  lemma {:induction false} KeptSnoc(messages: seq<string>, inserted: seq<bool>, c: string, b: bool)
    requires |inserted| == |messages|
    ensures Kept(messages + [c], inserted + [b]) == Kept(messages, inserted) + (if b then [c] else [])
    decreases |messages|
  {
    if messages != [] {
      KeptSnoc(messages[1..], inserted[1..], c, b);
      assert (messages + [c])[1..] == messages[1..] + [c];
      assert (inserted + [b])[1..] == inserted[1..] + [b];
    }
  }

  lemma ProcessAllSnoc(contents: seq<string>, c: string, process: string -> Memory)
    ensures ProcessAll(contents + [c], process) == ProcessAll(contents, process) + [process(c)]
  {
    var l := ProcessAll(contents + [c], process);
    var r := ProcessAll(contents, process) + [process(c)];
    assert |l| == |r|;
    forall k | 0 <= k < |l| ensures l[k] == r[k] {
      assert (contents + [c])[k] == if k < |contents| then contents[k] else c;
    }
  }

  /** The memories returned are exactly those of the successfully inserted fragments, in input order. */
  lemma {:induction false} ProcessedIsKept(messages: seq<string>, inserted: seq<bool>, process: string -> Memory)
    requires |inserted| == |messages|
    ensures Processed(messages, inserted, process) == ProcessAll(Kept(messages, inserted), process)
    decreases |messages|
  {
    if messages != [] {
      var n := |messages| - 1;
      ProcessedIsKept(messages[..n], inserted[..n], process);
      KeptSnoc(messages[..n], inserted[..n], messages[n], inserted[n]);
      assert messages[..n] + [messages[n]] == messages;
      assert inserted[..n] + [inserted[n]] == inserted;
      if inserted[n] {
        ProcessAllSnoc(Kept(messages[..n], inserted[..n]), messages[n], process);
      } else {
        assert Kept(messages[..n], inserted[..n]) + [] == Kept(messages[..n], inserted[..n]);
      }
    }
  }

  /**
   * Every memory `addMemory` returns comes from one of the fragments, shares
   * the batch's timestamp and importance, and scores its type's weight.
   */
  lemma ProcessedShared(messages: seq<string>, inserted: seq<bool>, timestamp: int, importance: real)
    requires |inserted| == |messages|
    ensures forall m :: m in Processed(messages, inserted, Ingest(timestamp, importance)) ==>
      m.timestamp == timestamp && m.importance == importance && m.content in messages &&
      m.productivityScore == ProductivityScore(m.activityType) && -1.0 < m.emotionalValence < 1.0 &&
      |m.keyConcepts| <= MaxConcepts
  {
    var process := Ingest(timestamp, importance);
    var kept := Kept(messages, inserted);
    ProcessedIsKept(messages, inserted, process);
    forall m | m in Processed(messages, inserted, process)
      ensures m.timestamp == timestamp && m.importance == importance && m.content in messages &&
        m.productivityScore == ProductivityScore(m.activityType) && -1.0 < m.emotionalValence < 1.0 &&
        |m.keyConcepts| <= MaxConcepts
    {
      var k :| 0 <= k < |kept| && ProcessAll(kept, process)[k] == m;
      IngestShared(timestamp, importance, kept[k]);
    }
  }

  /** When every insert succeeds, one memory per fragment comes back, in order. */
  lemma {:induction false} KeptAll(messages: seq<string>, inserted: seq<bool>)
    requires |inserted| == |messages|
    requires forall k :: 0 <= k < |inserted| ==> inserted[k]
    ensures Kept(messages, inserted) == messages
    decreases |messages|
  {
    if messages != [] {
      KeptAll(messages[1..], inserted[1..]);
    }
  }

  /** When every insert fails, nothing is returned. */
  lemma {:induction false} KeptNone(messages: seq<string>, inserted: seq<bool>)
    requires |inserted| == |messages|
    requires forall k :: 0 <= k < |inserted| ==> !inserted[k]
    ensures Kept(messages, inserted) == []
    decreases |messages|
  {
    if messages != [] {
      KeptNone(messages[1..], inserted[1..]);
    }
  }

  /** Three fragments whose second insert fails: two memories, for the first and third fragments. */
  lemma ProcessedSkipsFailure(a: string, b: string, c: string, process: string -> Memory)
    ensures Processed([a, b, c], [true, false, true], process) == [process(a), process(c)]
  {
    assert [a, b, c][..2] == [a, b] && [a, b][..1] == [a] && [a][..0] == [];
    assert [true, false, true][..2] == [true, false] && [true, false][..1] == [true] && [true][..0] == [];
    assert Processed([a], [true], process) == [process(a)];
    assert Processed([a, b], [true, false], process) == [process(a)];
  }

  /** The body of the ingestion loop before the insert: concepts, inferred type, valence and weight of one fragment. */
  method ProcessFragment(content: string, timestamp: int, importance: real) returns (m: Memory)
    ensures m == Ingest(timestamp, importance)(content)
  {
    var keyConcepts := ExtractKeyConcepts(content);
    var activityType := InferActivityType(keyConcepts);
    var emotionalValence := AnalyzeEmotionalContent(content);
    var productivityScore := ProductivityScore(activityType);
    m := Memory(timestamp, content, importance, emotionalValence, keyConcepts, activityType, productivityScore);
  }

  /** Pushing one more memory keeps the queue equal to the last seven of its old contents and the memories so far. */
  lemma QueueStep(q0: seq<Memory>, before: seq<Memory>, m: Memory, items: seq<Memory>)
    requires items == LastN(q0 + before, WorkingMemorySize)
    ensures PushOne(items, WorkingMemorySize, m) == LastN(q0 + (before + [m]), WorkingMemorySize)
  {
    PushOneIsLastN(items, WorkingMemorySize, m);
    LastNAppend(q0 + before, [m], WorkingMemorySize);
    assert q0 + before + [m] == q0 + (before + [m]);
  }

  class EnhancedMemoryManager {
    /** One queue per key; `initializeUser` keys it by user, ingestion and retrieval look it up by session. */
    var workingMemory: map<string, FixedSizeQueue<Memory>>
    /** Strength per key and memory timestamp; no operation of the core writes an entry into an inner map. */
    var memoryStrength: map<string, map<int, real>>
    const apiKey: string

    ghost predicate Valid()
      reads this, workingMemory.Values
    {
      (forall k :: k in workingMemory ==> workingMemory[k].maxSize == WorkingMemorySize && workingMemory[k].Valid()) &&
      (forall a, b :: a in workingMemory && b in workingMemory && a != b ==> workingMemory[a] != workingMemory[b])
    }

    constructor (apiKey: string)
      ensures Valid()
      ensures this.apiKey == apiKey && workingMemory == map[] && memoryStrength == map[]
    {
      this.apiKey := apiKey;
      workingMemory := map[];
      memoryStrength := map[];
    }

    /**
     * `initializeUser`: a fresh empty queue and an empty strength map under
     * `userId`, set before the profile upsert, so they stay even when the
     * upsert fails.
     */
    method InitializeUser(userId: string, email: string, firstName: string, lastName: string, createdAt: string,
                          upsertFailed: bool)
      returns (r: Result<UserProfile>)
      requires Valid()
      modifies this
      ensures Valid()
      ensures userId in workingMemory && fresh(workingMemory[userId]) && workingMemory[userId].items == []
      ensures workingMemory.Keys == old(workingMemory).Keys + {userId}
      ensures forall k :: k in old(workingMemory) && k != userId ==> workingMemory[k] == old(workingMemory)[k]
      ensures memoryStrength == old(memoryStrength)[userId := map[]]
      ensures r.Err? <==> upsertFailed
      ensures r.Ok? ==> r.value == UserProfile(userId, email, firstName, lastName, createdAt)
    {
      var q := new FixedSizeQueue<Memory>(WorkingMemorySize);
      workingMemory := workingMemory[userId := q];
      memoryStrength := memoryStrength[userId := map[]];
      if upsertFailed {
        return Err("upsert into users failed");
      }
      r := Ok(UserProfile(userId, email, firstName, lastName, createdAt));
    }

    /**
     * `addMemory`: processes each fragment, keeps those whose insert
     * (`inserted[i]`) succeeded, and pushes each kept memory into the queue
     * under `sessionId` if there is one.
     */
    method AddMemory(sessionId: string, messages: seq<string>, importance: real, timestamp: int, inserted: seq<bool>)
      returns (processed: seq<Memory>)
      requires Valid()
      requires |inserted| == |messages|
      modifies if sessionId in workingMemory then {workingMemory[sessionId]} else {}
      ensures Valid()
      ensures processed == Processed(messages, inserted, Ingest(timestamp, importance))
      ensures sessionId in workingMemory ==>
        workingMemory[sessionId].items == LastN(old(workingMemory[sessionId].items) + processed, WorkingMemorySize)
    {
      var workingMem: FixedSizeQueue?<Memory> := if sessionId in workingMemory then workingMemory[sessionId] else null;
      ghost var q0: seq<Memory> := if workingMem != null then workingMem.items else [];
      ghost var process := Ingest(timestamp, importance);
      processed := [];
      var i := 0;
      while i < |messages|
        invariant 0 <= i <= |messages|
        invariant processed == Processed(messages[..i], inserted[..i], process)
        invariant workingMem != null ==>
          workingMem.maxSize == WorkingMemorySize && workingMem.Valid() && workingMem.items == LastN(q0 + processed, WorkingMemorySize)
      {
        var processedMsg := ProcessFragment(messages[i], timestamp, importance);
        ProcessedStep(messages, inserted, i, processed, processedMsg, process);
        ghost var next := Processed(messages[..i + 1], inserted[..i + 1], process);
        if inserted[i] {
          if workingMem != null {
            QueueStep(q0, processed, processedMsg, workingMem.items);
            workingMem.Push(processedMsg);
          }
          processed := processed + [processedMsg];
        }
        assert processed == next;
        i := i + 1;
      }
      assert messages[..i] == messages;
      assert inserted[..i] == inserted;
      forall k | k in workingMemory
        ensures workingMemory[k].maxSize == WorkingMemorySize && workingMemory[k].Valid()
      {
        if workingMem == null || k != sessionId {
          assert workingMemory[k] != workingMem;
        }
      }
    }

    /** The contents of the queue under `key`, oldest first, or nothing when there is none. */
    function Snapshot(key: string): seq<Memory>
      reads this, workingMemory.Values
    {
      if key in workingMemory then workingMemory[key].items else []
    }

    /** `memoryStrength.get(sessionId)`, with an absent session read as an empty map. */
    function SessionStrength(sessionId: string): map<int, real>
      reads this
    {
      if sessionId in memoryStrength then memoryStrength[sessionId] else map[]
    }

    /**
     * `getLocalMemories`: the session's working memory ranked by score,
     * highest first, at most `limit` entries; nothing without a queue.
     */
    function GetLocalMemories(sessionId: string, limit: nat, now: int, recency: int -> real): (r: seq<Memory>)
      reads this, workingMemory.Values
      ensures sessionId !in workingMemory ==> r == []
      ensures |r| == if |Snapshot(sessionId)| <= limit then |Snapshot(sessionId)| else limit
      ensures SortedDesc(r, SessionStrength(sessionId), now, recency)
      ensures multiset(r) <= multiset(Snapshot(sessionId))
      ensures forall x, i :: x in Snapshot(sessionId) && x !in r && 0 <= i < |r| ==>
        ScoreOf(SessionStrength(sessionId), now, recency, x) <= ScoreOf(SessionStrength(sessionId), now, recency, r[i])
    {
      if sessionId !in workingMemory then []
      else
        var memories := workingMemory[sessionId].items;
        var strength := SessionStrength(sessionId);
        RankedLength(memories, strength, now, recency, limit);
        RankedOrdered(memories, strength, now, recency, limit);
        RankedFromCandidates(memories, strength, now, recency, limit);
        RankedIsTopAll(memories, strength, now, recency, limit);
        Ranked(memories, strength, now, recency, limit)
    }

    /**
     * `getRelevantContext`: on a fetch error, the local result; otherwise
     * working memory followed by every fetched row, whatever its session,
     * ranked by score and cut to `limit`.
     */
    function GetRelevantContext(sessionId: string, fetch: Fetch, limit: nat, now: int, recency: int -> real)
      : (r: seq<Memory>)
      reads this, workingMemory.Values
      ensures fetch.FetchError? ==> r == GetLocalMemories(sessionId, limit, now, recency)
      ensures fetch.Fetched? ==> |r| == if |Snapshot(sessionId) + fetch.rows| <= limit then |Snapshot(sessionId) + fetch.rows| else limit
      ensures |r| <= limit
      ensures SortedDesc(r, SessionStrength(sessionId), now, recency)
      ensures fetch.Fetched? ==> multiset(r) <= multiset(Snapshot(sessionId) + fetch.rows)
      ensures fetch.Fetched? ==> forall x, i :: x in Snapshot(sessionId) + fetch.rows && x !in r && 0 <= i < |r| ==>
        ScoreOf(SessionStrength(sessionId), now, recency, x) <= ScoreOf(SessionStrength(sessionId), now, recency, r[i])
    {
      match fetch
      case FetchError => GetLocalMemories(sessionId, limit, now, recency)
      case Fetched(rows) =>
        var all := Snapshot(sessionId) + rows;
        var strength := SessionStrength(sessionId);
        RankedLength(all, strength, now, recency, limit);
        RankedOrdered(all, strength, now, recency, limit);
        RankedFromCandidates(all, strength, now, recency, limit);
        RankedIsTopAll(all, strength, now, recency, limit);
        Ranked(all, strength, now, recency, limit)
    }
  }
}
