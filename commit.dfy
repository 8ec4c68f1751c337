/**
 * What `commit` sends to the database: for every element of the name set it
 * calls `insert_many` with one `{'ext': curr_ext, 'name': d}` document per
 * name of the whole set. The database itself is not modelled; the result is
 * the list of batches in the order they would be sent.
 */
module Commit {

  /** One inserted document. */
  datatype Record = Record(ext: string, name: string)

  /** The documents of one `insert_many` call. */
  type Batch = seq<Record>

  function RecordNames(b: Batch): set<string> {
    set r | r in b :: r.name
  }

  /** `b` is a batch built from `names`: one record per distinct name, each
      tagged with `ext`, in some iteration order of the set. */
  predicate IsBatchOf(b: Batch, names: set<string>, ext: string) {
    && |b| == |names|
    && RecordNames(b) == names
    && (forall i, j | 0 <= i < j < |b| :: b[i].name != b[j].name)
    && (forall i | 0 <= i < |b| :: b[i].ext == ext)
  }

  /** `bs` is what `commit` sends for `names`: as many batches as there are
      names, each of them a full batch of the set, and all of them the same
      list. */
  predicate IsCommitOf(bs: seq<Batch>, names: set<string>, ext: string) {
    && |bs| == |names|
    && (forall i | 0 <= i < |bs| :: IsBatchOf(bs[i], names, ext))
    && (forall i | 0 <= i < |bs| :: bs[i] == bs[0])
  }

  /** The list comprehension inside `commit`: one record per element of the
      set, in the set's iteration order. */
  method BuildBatch(names: set<string>, ext: string) returns (batch: Batch)
    ensures IsBatchOf(batch, names, ext)
  {
    batch := [];
    var rest := names;
    ghost var done: set<string> := {};
    while rest != {}
      invariant done + rest == names && done !! rest
      invariant IsBatchOf(batch, done, ext)
      decreases rest
    {
      var d :| d in rest;
      BatchStep(batch, done, rest, names, ext, d);
      batch := batch + [Record(ext, d)];
      done := done + {d};
      rest := rest - {d};
    }
  }

  /** One iteration of the comprehension: the chosen name moves from the
      names still to visit to the batch. */
  lemma BatchStep(b: Batch, done: set<string>, rest: set<string>, names: set<string>, ext: string, d: string)
    requires done + rest == names && done !! rest && d in rest
    requires IsBatchOf(b, done, ext)
    ensures (done + {d}) + (rest - {d}) == names && (done + {d}) !! (rest - {d})
    ensures IsBatchOf(b + [Record(ext, d)], done + {d}, ext)
  {
    BatchSnoc(b, done, ext, d);
  }

  /** Appending the record of a new name keeps a batch a batch. */
  lemma BatchSnoc(b: Batch, names: set<string>, ext: string, d: string)
    requires IsBatchOf(b, names, ext) && d !in names
    ensures IsBatchOf(b + [Record(ext, d)], names + {d}, ext)
  {
    var b' := b + [Record(ext, d)];
    assert RecordNames(b') == RecordNames(b) + {d} by {
      assert forall r :: r in b' <==> r in b || r == Record(ext, d);
    }
    forall i, j | 0 <= i < j < |b'| ensures b'[i].name != b'[j].name {
      if j == |b| {
        assert b[i] in b;
        assert b[i].name in RecordNames(b);
      }
    }
  }

  /** `commit`: for each element of the set, one `insert_many` of the whole
      set. The comprehension is evaluated again on every iteration, but over
      the same set, which nothing changes in between, so it yields the same
      list each time; it is built once here. Clearing the caller's set
      afterwards has no effect that anything reads, as the caller drops the
      set. */
  method CommitNames(names: set<string>, ext: string) returns (batches: seq<Batch>)
    ensures IsCommitOf(batches, names, ext)
  {
    batches := [];
    var batch := BuildBatch(names, ext);
    var rest := names;
    while rest != {}
      invariant rest <= names
      invariant |batches| + |rest| == |names|
      invariant forall i | 0 <= i < |batches| :: batches[i] == batch
      decreases rest
    {
      var d :| d in rest;
      batches := batches + [batch];
      rest := rest - {d};
    }
  }

  /** A commit of one name sends one batch holding one record. */
  lemma CommitOfSingleton(bs: seq<Batch>, x: string, ext: string)
    requires IsCommitOf(bs, {x}, ext)
    ensures bs == [[Record(ext, x)]]
  {
    assert |bs| == 1;
    var b := bs[0];
    assert |b| == 1;
    assert b[0].name in RecordNames(b);
    assert b == [Record(ext, x)];
  }

  /** Every name of the set reaches the database once per batch, every batch
      is the same list, and its records are `{ext, name}` for each name. */
  lemma BatchesAgree(bs: seq<Batch>, names: set<string>, ext: string, i: int, j: int)
    requires IsCommitOf(bs, names, ext)
    requires 0 <= i < |bs| && 0 <= j < |bs|
    ensures bs[i] == bs[j]
    ensures (set r | r in bs[i]) == (set r | r in bs[j]) == (set d | d in names :: Record(ext, d))
  {
    forall k | 0 <= k < |bs| ensures (set r | r in bs[k]) == (set d | d in names :: Record(ext, d)) {
      var b := bs[k];
      assert IsBatchOf(b, names, ext);
      forall r | r in b ensures r == Record(ext, r.name) && r.name in names {
        assert r.name in RecordNames(b);
      }
      forall d | d in names ensures Record(ext, d) in b {
        assert d in RecordNames(b);
        var r :| r in b && r.name == d;
        assert r == Record(ext, d);
      }
    }
  }
}
