/** Removing chunks whose document is gone, in batches. */
module Expiration {
  import opened Common

  const BATCH_SIZE: nat := 500

  /** Chunk ids with the document each belongs to, if any. */
  type Chunks = map<string, Option<string>>

  function Orphans(chunks: Chunks, documents: set<string>): set<string> {
    set c | c in chunks && chunks[c].Some? && chunks[c].value !in documents
  }

  /** An orphan is a chunk that belongs to a document which is not there. */
  lemma OrphansAre(chunks: Chunks, documents: set<string>, c: string)
    ensures c in Orphans(chunks, documents) <==>
      c in chunks && exists d :: chunks[c] == Some(d) && d !in documents
  {
  }

  datatype Report = Report(orphaned: nat, batches: nat, failed: bool)

  class ChunkTable {
    var chunks: Chunks
    const documents: set<string>

    constructor (chunks: Chunks, documents: set<string>)
      ensures this.chunks == chunks && this.documents == documents
    {
      this.chunks, this.documents := chunks, documents;
    }

    /** The database chooses which rows a limited query returns. */
    method Choose(from: set<string>, limit: nat) returns (picked: set<string>)
      ensures picked <= from && |picked| == if |from| < limit then |from| else limit
    {
      picked := {};
      var rest := from;
      while rest != {} && |picked| < limit
        invariant picked !! rest && picked + rest == from && |picked| <= limit
        decreases |rest|
      {
        assert |from| == |picked| + |rest|;
        var c :| c in rest;
        picked, rest := picked + {c}, rest - {c};
      }
      assert |from| == |picked| + |rest|;
    }

    method DeleteBatch() returns (deleted: nat)
      modifies this
      ensures var orphans := |Orphans(old(chunks), documents)|;
        deleted == if orphans < 500 then orphans else 500
      ensures exists picked ::
        picked <= Orphans(old(chunks), documents) && |picked| == deleted && chunks == old(chunks) - picked
    {
      var picked := Choose(Orphans(chunks, documents), BATCH_SIZE);
      chunks := chunks - picked;
      deleted := |picked|;
    }

    /** Batch number `failAt`, if the loop gets that far, raises and deletes nothing. Without a
        failure exactly the orphans are deleted; with one, five hundred for each batch before it,
        and the report says none. */
    method DeleteOrphans(failAt: Option<nat>) returns (r: Report)
      modifies this
      ensures var n := |Orphans(old(chunks), documents)|;
        r.failed == (failAt.Some? && failAt.value <= n / 500)
      ensures !r.failed ==> chunks == old(chunks) - Orphans(old(chunks), documents)
      ensures !r.failed ==> r.orphaned == |Orphans(old(chunks), documents)| && r.batches == r.orphaned / 500 + 1
      ensures r.failed ==> r.orphaned == 0 && r.batches == failAt.value
      ensures r.failed ==> exists gone ::
        gone <= Orphans(old(chunks), documents) && |gone| == 500 * failAt.value && chunks == old(chunks) - gone
    {
      ghost var before, orphans := chunks, Orphans(chunks, documents);
      ghost var gone: set<string> := {};
      var total, batches := 0, 0;
      while true
        invariant gone <= orphans && chunks == before - gone && |gone| == total == BATCH_SIZE * batches
        invariant failAt.Some? ==> batches <= failAt.value
        decreases |orphans| - |gone|
      {
        if failAt == Some(batches) {
          Fits(gone, orphans);
          return Report(0, batches, true);
        }
        RestIsOrphaned(before, documents, gone);
        ghost var now := chunks;
        var deleted := DeleteBatch();
        ghost var picked :| picked <= Orphans(now, documents) && |picked| == deleted && chunks == now - picked;
        Grows(before, gone, picked, orphans);
        gone := gone + picked;
        total := total + deleted;
        if deleted < BATCH_SIZE {
          LastBatch(before, documents, orphans, gone);
          return Report(total, batches + 1, false);
        }
        batches := batches + 1;
      }
    }
  }

  lemma Fits(a: set<string>, b: set<string>)
    requires a <= b
    ensures |a| <= |b| && |b - a| == |b| - |a|
  {
    assert b == a + (b - a);
  }

  lemma RestIsOrphaned(chunks: Chunks, documents: set<string>, gone: set<string>)
    ensures Orphans(chunks - gone, documents) == Orphans(chunks, documents) - gone
  {
  }

  lemma Grows(chunks: Chunks, gone: set<string>, picked: set<string>, orphans: set<string>)
    requires gone <= orphans && picked <= orphans - gone
    ensures gone + picked <= orphans && |gone + picked| == |gone| + |picked| <= |orphans|
    ensures chunks - gone - picked == chunks - (gone + picked)
  {
    Fits(gone + picked, orphans);
  }

  lemma LastBatch(chunks: Chunks, documents: set<string>, orphans: set<string>, gone: set<string>)
    requires gone <= orphans && |gone| == |orphans|
    ensures gone == orphans
  {
    Fits(gone, orphans);
    assert orphans - gone == {};
  }
}
