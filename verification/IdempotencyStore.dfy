/** The idempotency store: three in-memory maps written through to one table
    (orchestrator/idempotency_store.py). */
module IdempotencyStore {
  import opened Bytes

  datatype IdemRecord = IdemRecord(jobId: string, createdAt: int, status: string)

  datatype ReviewRecord = ReviewRecord(identity: string, outcome: string, applied: bool, createdAt: int)

  datatype SourceRecord = SourceRecord(jobId: string, intentHash: string, createdAt: int)

  /** A row of the `state` table. */
  datatype Row = IdemRow(idem: IdemRecord) | ReviewRow(review: ReviewRecord) | SourceRow(source: SourceRecord)

  const IDEM := "idem:"
  const REVIEW := "review_idem:"
  const SOURCE := "srcevent:"

  datatype SourceStatus = New | Equivalent | Conflict

  /** The database: the `state` table and the status column of the `jobs` table. */
  class Database {
    var state: map<string, Row>
    var jobs: map<string, string>

    constructor ()
      ensures state == map[] && jobs == map[]
    {
      state, jobs := map[], map[];
    }
  }

  // ---------------------------------------------------------------- the three namespaces

  lemma PrefixesDisjoint(a: string, b: string, d: string)
    ensures IDEM + a != REVIEW + b && REVIEW + b != SOURCE + d && IDEM + a != SOURCE + d
    ensures !(IDEM <= REVIEW + b) && !(IDEM <= SOURCE + d) && !(REVIEW <= IDEM + a)
    ensures !(REVIEW <= SOURCE + d) && !(SOURCE <= IDEM + a) && !(SOURCE <= REVIEW + b)
  {
    assert (IDEM + a)[0] == 'i' && (REVIEW + b)[0] == 'r' && (SOURCE + d)[0] == 's';
  }

  ghost predicate MirrorsIdem(records: map<string, IdemRecord>, state: map<string, Row>) {
    && (forall k :: k in records ==> IDEM + k in state && state[IDEM + k] == IdemRow(records[k]))
    && (forall key :: key in state && IDEM <= key ==> key[|IDEM|..] in records)
  }

  ghost predicate MirrorsReview(records: map<string, ReviewRecord>, state: map<string, Row>) {
    && (forall k :: k in records ==> REVIEW + k in state && state[REVIEW + k] == ReviewRow(records[k]))
    && (forall key :: key in state && REVIEW <= key ==> key[|REVIEW|..] in records)
  }

  ghost predicate MirrorsSource(records: map<string, SourceRecord>, state: map<string, Row>) {
    && (forall k :: k in records ==> SOURCE + k in state && state[SOURCE + k] == SourceRow(records[k]))
    && (forall key :: key in state && SOURCE <= key ==> key[|SOURCE|..] in records)
  }

  /** The rows of each namespace are exactly the records of one map. */
  ghost predicate Mirrors(records: map<string, IdemRecord>, reviews: map<string, ReviewRecord>,
                          sources: map<string, SourceRecord>, state: map<string, Row>)
  {
    MirrorsIdem(records, state) && MirrorsReview(reviews, state) && MirrorsSource(sources, state)
  }

  lemma PutIdem(records: map<string, IdemRecord>, reviews: map<string, ReviewRecord>,
                sources: map<string, SourceRecord>, state: map<string, Row>, k: string, r: IdemRecord)
    requires Mirrors(records, reviews, sources, state)
    ensures Mirrors(records[k := r], reviews, sources, state[IDEM + k := IdemRow(r)])
  {
    PrefixesDisjoint(k, k, k);
    assert (IDEM + k)[|IDEM|..] == k;
    forall b ensures IDEM + k != REVIEW + b && IDEM + k != SOURCE + b {
      PrefixesDisjoint(k, b, b);
    }
    forall a | IDEM + a == IDEM + k ensures a == k {
      assert a == (IDEM + a)[|IDEM|..];
    }
  }

  lemma PutReview(records: map<string, IdemRecord>, reviews: map<string, ReviewRecord>,
                  sources: map<string, SourceRecord>, state: map<string, Row>, k: string, r: ReviewRecord)
    requires Mirrors(records, reviews, sources, state)
    ensures Mirrors(records, reviews[k := r], sources, state[REVIEW + k := ReviewRow(r)])
  {
    PrefixesDisjoint(k, k, k);
    assert (REVIEW + k)[|REVIEW|..] == k;
    forall b ensures IDEM + b != REVIEW + k && REVIEW + k != SOURCE + b {
      PrefixesDisjoint(b, k, b);
    }
    forall a | REVIEW + a == REVIEW + k ensures a == k {
      assert a == (REVIEW + a)[|REVIEW|..];
    }
  }

  lemma PutSource(records: map<string, IdemRecord>, reviews: map<string, ReviewRecord>,
                  sources: map<string, SourceRecord>, state: map<string, Row>, k: string, r: SourceRecord)
    requires Mirrors(records, reviews, sources, state)
    ensures Mirrors(records, reviews, sources[k := r], state[SOURCE + k := SourceRow(r)])
  {
    PrefixesDisjoint(k, k, k);
    assert (SOURCE + k)[|SOURCE|..] == k;
    forall b ensures IDEM + b != SOURCE + k && REVIEW + b != SOURCE + k {
      PrefixesDisjoint(b, b, k);
    }
    forall a | SOURCE + a == SOURCE + k ensures a == k {
      assert a == (SOURCE + a)[|SOURCE|..];
    }
  }

  lemma DropSource(records: map<string, IdemRecord>, reviews: map<string, ReviewRecord>,
                   sources: map<string, SourceRecord>, state: map<string, Row>, k: string)
    requires Mirrors(records, reviews, sources, state)
    ensures Mirrors(records, reviews, sources - {k}, state - {SOURCE + k})
  {
    PrefixesDisjoint(k, k, k);
    assert (SOURCE + k)[|SOURCE|..] == k;
    forall b ensures IDEM + b != SOURCE + k && REVIEW + b != SOURCE + k {
      PrefixesDisjoint(b, b, k);
    }
    forall a | SOURCE + a == SOURCE + k ensures a == k {
      assert a == (SOURCE + a)[|SOURCE|..];
    }
    forall key | key in state - {SOURCE + k} && SOURCE <= key ensures key[|SOURCE|..] in sources - {k} {
      assert key == SOURCE + key[|SOURCE|..];
    }
  }

  /** Row keys of a set of submit keys. */
  function IdemKeys(ks: set<string>): set<string> {
    set k | k in ks :: IDEM + k
  }

  lemma DropIdems(records: map<string, IdemRecord>, reviews: map<string, ReviewRecord>,
                  sources: map<string, SourceRecord>, state: map<string, Row>, ks: set<string>)
    requires Mirrors(records, reviews, sources, state)
    ensures Mirrors(records - ks, reviews, sources, state - IdemKeys(ks))
  {
    forall a, b ensures IDEM + a != REVIEW + b && IDEM + a != SOURCE + b {
      PrefixesDisjoint(a, b, b);
    }
    forall a, b | IDEM + a == IDEM + b ensures a == b {
      assert a == (IDEM + a)[|IDEM|..] && b == (IDEM + b)[|IDEM|..];
    }
    forall k | k in records - ks ensures IDEM + k !in IdemKeys(ks) {
    }
    forall key | key in state - IdemKeys(ks) && IDEM <= key ensures key[|IDEM|..] in records - ks {
      assert key == IDEM + key[|IDEM|..];
    }
  }

  // ---------------------------------------------------------------- source-event reservations

  /** First writer wins: a fresh key is reserved, a known one reports its stored mapping. */
  function Reserve(sources: map<string, SourceRecord>, key: string, r: SourceRecord)
    : (SourceStatus, SourceRecord, map<string, SourceRecord>)
  {
    if key !in sources then (New, r, sources[key := r])
    else (if sources[key].intentHash == r.intentHash then Equivalent else Conflict, sources[key], sources)
  }

  /** Rolls back a reservation, but only one that still maps to `jobId`. */
  function Release(sources: map<string, SourceRecord>, key: string, jobId: string): map<string, SourceRecord> {
    if key in sources && sources[key].jobId == jobId then sources - {key} else sources
  }

  /** What a reservation and its release mean for one key, and that they touch no other: the first
      writer's record stays until a release names its job, and a release of a fresh reservation leaves
      the mapping as it was before. */
  lemma FirstWriterWins(sources: map<string, SourceRecord>, key: string, r: SourceRecord, jobId: string)
    ensures var (status, record, after) := Reserve(sources, key, r);
      && (status == New <==> key !in sources)
      && (status == Conflict <==> key in sources && sources[key].intentHash != r.intentHash)
      && key in after && after[key] == record == (if key in sources then sources[key] else r)
      && (forall k :: k != key ==> (k in after <==> k in sources) && (k in sources ==> after[k] == sources[k]))
      && (key !in sources ==> Release(after, key, r.jobId) == sources)
    ensures key in sources && sources[key].jobId != jobId ==> Release(sources, key, jobId) == sources
    ensures key in sources && sources[key].jobId == jobId ==> Release(sources, key, jobId) == map k | k in sources && k != key :: sources[k]
  {
  }

  // ---------------------------------------------------------------- stale keys

  predicate TerminalStatus(status: string) {
    status == "delivered" || status == "failed"
  }

  predicate Live(jobs: map<string, string>, jobId: string) {
    jobId in jobs && !TerminalStatus(jobs[jobId])
  }

  /** Submit records whose job is missing, delivered or failed. */
  function Stale(records: map<string, IdemRecord>, jobs: map<string, string>): set<string> {
    set k | k in records && !Live(jobs, records[k].jobId)
  }

  /** What a restart keeps: the submit records whose job is in the jobs table, neither delivered nor failed. */
  lemma KeptAtRestart(records: map<string, IdemRecord>, jobs: map<string, string>, k: string)
    ensures var left := records - Stale(records, jobs);
      && (k in left <==>
            k in records && records[k].jobId in jobs && jobs[records[k].jobId] !in {"delivered", "failed"})
      && (k in left ==> left[k] == records[k])
  {
  }

  predicate StaleRow(key: string, row: Row, jobs: map<string, string>) {
    IDEM <= key && !(row.IdemRow? && Live(jobs, row.idem.jobId))
  }

  /** The purge deletes exactly the rows of stale submit records. */
  lemma PurgeMirrors(records: map<string, IdemRecord>, reviews: map<string, ReviewRecord>,
                     sources: map<string, SourceRecord>, state: map<string, Row>, jobs: map<string, string>)
    requires Mirrors(records, reviews, sources, state)
    ensures Mirrors(records - Stale(records, jobs), reviews, sources,
                    map key | key in state && !StaleRow(key, state[key], jobs) :: state[key])
  {
    var state' := map key | key in state && !StaleRow(key, state[key], jobs) :: state[key];
    forall key | key in state && IDEM <= key
      ensures key[|IDEM|..] in records && key == IDEM + key[|IDEM|..]
      ensures state[key] == IdemRow(records[key[|IDEM|..]])
    {
    }
    forall k | k in records
      ensures StaleRow(IDEM + k, state[IDEM + k], jobs) <==> k in Stale(records, jobs)
    {
      assert IDEM <= IDEM + k;
    }
    forall b ensures !(IDEM <= REVIEW + b) && !(IDEM <= SOURCE + b) {
      PrefixesDisjoint(b, b, b);
    }
  }

  // ---------------------------------------------------------------- the store

  class Store {
    var records: map<string, IdemRecord>
    var reviews: map<string, ReviewRecord>
    var sources: map<string, SourceRecord>
    const db: Database?

    /** The maps and the table agree, when there is a table. */
    ghost predicate Valid()
      reads this, db
    {
      db != null ==> Mirrors(records, reviews, sources, db.state)
    }

    /** An empty store without a database. */
    constructor InMemory()
      ensures Valid() && db == null && records == map[] && reviews == map[] && sources == map[]
    {
      records, reviews, sources := map[], map[], map[];
      db := null;
    }

    /** Restart on a database: purge stale submit keys, then load the three namespaces. */
    constructor FromDatabase(d: Database, ghost records0: map<string, IdemRecord>,
                             ghost reviews0: map<string, ReviewRecord>, ghost sources0: map<string, SourceRecord>)
      requires Mirrors(records0, reviews0, sources0, d.state)
      modifies d`state
      ensures Valid() && db == d
      ensures records == records0 - Stale(records0, d.jobs)
      ensures reviews == reviews0 && sources == sources0
    {
      db := d;
      records, reviews, sources := map[], map[], map[];
      new;
      ghost var jobs := d.jobs;
      PurgeMirrors(records0, reviews0, sources0, d.state, d.jobs);
      d.state := map key | key in d.state && !StaleRow(key, d.state[key], d.jobs) :: d.state[key];
      var rows := d.state;
      records := LoadRecords(rows, records0 - Stale(records0, jobs));
      reviews := LoadReviews(rows, reviews0);
      sources := LoadSources(rows, sources0);
    }

    method CheckAndStore(key: string, jobId: string, now: int) returns (isNew: bool, existing: Option<string>)
      requires Valid()
      modifies this`records, db
      ensures Valid() && (db != null ==> db.jobs == old(db.jobs))
      ensures isNew == (key !in old(records))
      ensures existing == if isNew then None else Some(old(records)[key].jobId)
      ensures records == if isNew then old(records)[key := IdemRecord(jobId, now, "accepted")] else old(records)
    {
      if key in records {
        return false, Some(records[key].jobId);
      }
      var r := IdemRecord(jobId, now, "accepted");
      if db != null {
        PutIdem(records, reviews, sources, db.state, key, r);
        db.state := db.state[IDEM + key := IdemRow(r)];
      }
      records := records[key := r];
      return true, None;
    }

    method UpdateStatus(key: string, status: string)
      requires Valid()
      modifies this`records, db
      ensures Valid() && (db != null ==> db.jobs == old(db.jobs))
      ensures records == if key in old(records) then old(records)[key := old(records)[key].(status := status)]
                         else old(records)
    {
      if key in records {
        var r := records[key].(status := status);
        if db != null {
          PutIdem(records, reviews, sources, db.state, key, r);
          db.state := db.state[IDEM + key := IdemRow(r)];
        }
        records := records[key := r];
      }
    }

    /** Removes the records older than the limit, in memory and in the table. */
    method PurgeExpired(now: int, ttl: int) returns (count: nat)
      requires Valid()
      modifies this`records, db
      ensures Valid() && (db != null ==> db.jobs == old(db.jobs))
      ensures records == old(records) - Expired(old(records), now, ttl)
      ensures count == |Expired(old(records), now, ttl)|
      ensures forall k :: k in records <==> k in old(records) && now - old(records)[k].createdAt <= ttl
      ensures forall k :: k in records ==> records[k] == old(records)[k]
      ensures count == |old(records)| - |records|
    {
      KeptAfterPurge(records, now, ttl);
      hide Expired;
      var expired := FindExpired(records, now, ttl);
      if db != null {
        DropIdems(records, reviews, sources, db.state, expired);
        db.state := db.state - IdemKeys(expired);
      }
      records := records - expired;
      count := |expired|;
    }

    method StoreReviewOutcome(key: string, r: ReviewRecord)
      requires Valid()
      modifies this`reviews, db
      ensures Valid() && (db != null ==> db.jobs == old(db.jobs)) && reviews == old(reviews)[key := r]
    {
      if db != null {
        PutReview(records, reviews, sources, db.state, key, r);
        db.state := db.state[REVIEW + key := ReviewRow(r)];
      }
      reviews := reviews[key := r];
    }

    /** `Reserve` against the table when there is one, against memory otherwise. */
    method CheckAndStoreSourceEvent(key: string, jobId: string, intentHash: string, now: int)
      returns (status: SourceStatus, record: SourceRecord)
      requires Valid()
      modifies this`sources, db
      ensures Valid() && (db != null ==> db.jobs == old(db.jobs))
      ensures (status, record, sources) == Reserve(old(sources), key, SourceRecord(jobId, intentHash, now))
      ensures status != New && db != null ==> db.state == old(db.state)
    {
      record := SourceRecord(jobId, intentHash, now);
      if db != null {
        assert key in sources <==> SOURCE + key in db.state by {
          assert (SOURCE + key)[|SOURCE|..] == key;
        }
        if SOURCE + key !in db.state {
          PutSource(records, reviews, sources, db.state, key, record);
          db.state := db.state[SOURCE + key := SourceRow(record)];
          sources := sources[key := record];
          return New, record;
        }
      }
      var existing: Option<SourceRecord> := None;
      if db != null && SOURCE + key in db.state && db.state[SOURCE + key].SourceRow? {
        existing := Some(db.state[SOURCE + key].source);
      } else if key in sources {
        existing := Some(sources[key]);
      }
      if existing.Some? {
        assert existing.value == sources[key];
        sources := sources[key := existing.value];
        assert sources == old(sources);
        record := existing.value;
        return if record.intentHash == intentHash then Equivalent else Conflict, record;
      }
      sources := sources[key := record];
      status := New;
    }

    /** Compare-and-delete in memory and in the table. */
    method ReleaseSourceEvent(key: string, jobId: string)
      requires Valid()
      modifies this`sources, db
      ensures Valid() && (db != null ==> db.jobs == old(db.jobs))
      ensures sources == Release(old(sources), key, jobId)
    {
      if db != null {
        assert (SOURCE + key)[|SOURCE|..] == key;
        if SOURCE + key in db.state && db.state[SOURCE + key].SourceRow? && db.state[SOURCE + key].source.jobId == jobId {
          DropSource(records, reviews, sources, db.state, key);
          db.state := db.state - {SOURCE + key};
        }
      }
      if key in sources && sources[key].jobId == jobId {
        sources := sources - {key};
      }
    }
  }

  /** Submit keys older than the limit. */
  function Expired(records: map<string, IdemRecord>, now: int, ttl: int): set<string> {
    set k | k in records && now - records[k].createdAt > ttl
  }

  /** What a purge leaves: the submit records at most as old as the limit, unchanged. */
  lemma KeptAfterPurge(records: map<string, IdemRecord>, now: int, ttl: int)
    ensures var left := records - Expired(records, now, ttl);
      && (forall k :: k in left <==> k in records && now - records[k].createdAt <= ttl)
      && (forall k :: k in left ==> left[k] == records[k])
      && |Expired(records, now, ttl)| == |records| - |left|
  {
    var gone := Expired(records, now, ttl);
    assert (records - gone).Keys == records.Keys - gone && gone <= records.Keys;
    assert |(records - gone).Keys| == |records.Keys| - |gone|;
  }

  method FindExpired(records: map<string, IdemRecord>, now: int, ttl: int) returns (expired: set<string>)
    ensures expired == Expired(records, now, ttl)
  {
    expired := {};
    var todo := records.Keys;
    while todo != {}
      invariant todo <= records.Keys
      invariant expired == set k | k in records && k !in todo && now - records[k].createdAt > ttl
      decreases |todo|
    {
      var k :| k in todo;
      if now - records[k].createdAt > ttl {
        expired := expired + {k};
      }
      todo := todo - {k};
    }
  }

  /** One query per namespace, row by row. */
  method LoadRecords(rows: map<string, Row>, ghost expected: map<string, IdemRecord>)
    returns (records: map<string, IdemRecord>)
    requires MirrorsIdem(expected, rows)
    ensures records == expected
  {
    records := map[];
    var todo := rows.Keys;
    while todo != {}
      invariant todo <= rows.Keys
      invariant forall k :: k in records <==> k in expected && IDEM + k !in todo
      invariant forall k :: k in records ==> records[k] == expected[k]
      decreases |todo|
    {
      var key :| key in todo;
      RowKey(IDEM, key);
      if IDEM <= key && rows[key].IdemRow? {
        records := records[key[|IDEM|..] := rows[key].idem];
      }
      todo := todo - {key};
    }
  }

  method LoadReviews(rows: map<string, Row>, ghost expected: map<string, ReviewRecord>)
    returns (records: map<string, ReviewRecord>)
    requires MirrorsReview(expected, rows)
    ensures records == expected
  {
    records := map[];
    var todo := rows.Keys;
    while todo != {}
      invariant todo <= rows.Keys
      invariant forall k :: k in records <==> k in expected && REVIEW + k !in todo
      invariant forall k :: k in records ==> records[k] == expected[k]
      decreases |todo|
    {
      var key :| key in todo;
      RowKey(REVIEW, key);
      if REVIEW <= key && rows[key].ReviewRow? {
        records := records[key[|REVIEW|..] := rows[key].review];
      }
      todo := todo - {key};
    }
  }

  method LoadSources(rows: map<string, Row>, ghost expected: map<string, SourceRecord>)
    returns (records: map<string, SourceRecord>)
    requires MirrorsSource(expected, rows)
    ensures records == expected
  {
    records := map[];
    var todo := rows.Keys;
    while todo != {}
      invariant todo <= rows.Keys
      invariant forall k :: k in records <==> k in expected && SOURCE + k !in todo
      invariant forall k :: k in records ==> records[k] == expected[k]
      decreases |todo|
    {
      var key :| key in todo;
      RowKey(SOURCE, key);
      if SOURCE <= key && rows[key].SourceRow? {
        records := records[key[|SOURCE|..] := rows[key].source];
      }
      todo := todo - {key};
    }
  }

  /** A row key of a namespace names one record there. */
  lemma RowKey(prefix: string, key: string)
    ensures prefix <= key ==> key == prefix + key[|prefix|..]
    ensures forall k :: prefix + k == key ==> prefix <= key && k == key[|prefix|..]
  {
  }
}
