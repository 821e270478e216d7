/**
  The hash chain over the event log, its checker, and what the checker can and
  cannot notice. The digest is a parameter. Where a result needs it to be
  collision-free, or never to produce the genesis value, it says so.
 */
module HashChain {
  import opened Outcomes

  type Hash = string

  const GENESIS_HASH: Hash := "0000000000000000000000000000000000000000000000000000000000000000"

  /** Every column the event hash covers. */
  datatype Fields = Fields(
    eventId: string, ts: int, runId: string, actorId: string, actorIncarnation: int,
    operationId: Option<string>, causationId: Option<string>, correlationId: Option<string>,
    kind: string, payloadSha256: Option<string>, payloadInline: Option<string>)

  datatype Row = Row(seqNo: int, fields: Fields, prevHash: Hash, eventHash: Hash)

  /** H(prev || canonical fields) */
  type Hasher = (Hash, Fields) -> Hash

  ghost predicate Injective(h: Hasher) {
    forall p, f, q, g :: h(p, f) == h(q, g) ==> p == q && f == g
  }

  ghost predicate AvoidsGenesis(h: Hasher) {
    forall p, f :: h(p, f) != GENESIS_HASH
  }

  function PrevAt(rows: seq<Row>, k: nat): Hash
    requires k <= |rows|
  {
    if k == 0 then GENESIS_HASH else rows[k-1].eventHash
  }

  function Tip(rows: seq<Row>): Hash {
    PrevAt(rows, |rows|)
  }

  predicate HashMatches(h: Hasher, rows: seq<Row>, k: nat)
    requires k < |rows|
  {
    rows[k].eventHash == h(PrevAt(rows, k), rows[k].fields)
  }

  predicate PrevMatches(rows: seq<Row>, k: nat)
    requires k < |rows|
  {
    rows[k].prevHash == PrevAt(rows, k)
  }

  predicate Linked(h: Hasher, rows: seq<Row>, k: nat)
    requires k < |rows|
  {
    PrevMatches(rows, k) && HashMatches(h, rows, k)
  }

  ghost predicate Verified(h: Hasher, rows: seq<Row>) {
    forall k :: 0 <= k < |rows| ==> Linked(h, rows, k)
  }

  /** Read in primary-key order; numbering starts at 1. */
  ghost predicate InSeqOrder(rows: seq<Row>) {
    (forall k :: 0 <= k < |rows| ==> rows[k].seqNo >= 1)
    && forall i, j :: 0 <= i < j < |rows| ==> rows[i].seqNo < rows[j].seqNo
  }

  /** The number of rows before `start`. */
  function RowsBefore(rows: seq<Row>, start: int): (n: nat)
    ensures n <= |rows|
    ensures n < |rows| ==> rows[n].seqNo >= start
    ensures forall k :: 0 <= k < n ==> rows[k].seqNo < start
  {
    if rows == [] || rows[0].seqNo >= start then 0
    else
      var n := RowsBefore(rows[1..], start);
      assert forall k :: 1 <= k <= n ==> rows[k] == rows[1..][k-1];
      n + 1
  }

  /** Recompute the chain from `startSeq`. It accepts exactly the logs whose rows
      from there on are all linked, and otherwise names the first that is not. */
  method VerifyChain(h: Hasher, rows: seq<Row>, startSeq: int)
    returns (ok: bool, firstBad: Option<string>)
    requires InSeqOrder(rows)
    ensures ok <==> forall k :: 0 <= k < |rows| && rows[k].seqNo >= startSeq ==> Linked(h, rows, k)
    ensures ok <==> firstBad == None
    ensures !ok ==> exists k :: 0 <= k < |rows| && rows[k].seqNo >= startSeq
                                && firstBad == Some(rows[k].fields.eventId) && !Linked(h, rows, k)
                                && forall j :: 0 <= j < k && rows[j].seqNo >= startSeq ==>
                                     Linked(h, rows, j)
  {
    var first := RowsBefore(rows, startSeq);
    var prev := GENESIS_HASH;
    if startSeq > 0 && first > 0 {
      prev := rows[first - 1].eventHash;
    }
    for k := first to |rows|
      invariant prev == PrevAt(rows, k)
      invariant forall j :: first <= j < k ==> Linked(h, rows, j)
    {
      if rows[k].prevHash != prev {
        return false, Some(rows[k].fields.eventId);
      }
      var recomputed := h(prev, rows[k].fields);
      if recomputed != rows[k].eventHash {
        return false, Some(rows[k].fields.eventId);
      }
      prev := rows[k].eventHash;
    }
    return true, None;
  }

  // ------------------------------------------------- what tampering shows

  /** The check with the `prev_hash` comparison taken out. */
  ghost predicate HashOnlyVerified(h: Hasher, rows: seq<Row>) {
    forall k :: 0 <= k < |rows| ==> HashMatches(h, rows, k)
  }

  /** The same in every column the hash covers, and in the hash. */
  predicate SameCovered(x: Row, y: Row) {
    x.fields == y.fields && x.eventHash == y.eventHash
  }

  /** The same row, whatever number it is stored under. */
  predicate SameRow(x: Row, y: Row) {
    SameCovered(x, y) && x.prevHash == y.prevHash
  }

  /** A row of `xs`, unmodified where the hash covers it. */
  ghost predicate Occurs(y: Row, xs: seq<Row>) {
    exists j :: 0 <= j < |xs| && SameCovered(y, xs[j])
  }

  /** No two predecessors share a hash: a row's predecessor determines where the
      row stands. */
  lemma {:induction false} PrevIsUnique(h: Hasher, xs: seq<Row>, i: nat, j: nat)
    requires Injective(h) && AvoidsGenesis(h) && HashOnlyVerified(h, xs)
    requires i <= |xs| && j <= |xs| && PrevAt(xs, i) == PrevAt(xs, j)
    ensures i == j
  {
    assert i > 0 ==> HashMatches(h, xs, i - 1);
    assert j > 0 ==> HashMatches(h, xs, j - 1);
    if i > 0 && j > 0 {
      PrevIsUnique(h, xs, i - 1, j - 1);
    }
  }

  lemma HashOnlyPrefix(h: Hasher, xs: seq<Row>, n: nat)
    requires HashOnlyVerified(h, xs) && n <= |xs|
    ensures HashOnlyVerified(h, xs[..n])
  {
    forall k | 0 <= k < n ensures HashMatches(h, xs[..n], k) {
      assert HashMatches(h, xs, k);
    }
  }

  /** Rows dropped, repeated or reordered, but unmodified where the hash covers
      them: if the recomputed hashes alone still match, what is left is a prefix of
      the original. */
  lemma {:induction false} HashAloneCatchesExcision(h: Hasher, xs: seq<Row>, ys: seq<Row>)
    requires Injective(h) && AvoidsGenesis(h)
    requires HashOnlyVerified(h, xs) && HashOnlyVerified(h, ys)
    requires forall k :: 0 <= k < |ys| ==> Occurs(ys[k], xs)
    ensures |ys| <= |xs|
    ensures forall k :: 0 <= k < |ys| ==> SameCovered(ys[k], xs[k])
  {
    if ys != [] {
      var n := |ys| - 1;
      var shorter := ys[..n];
      HashOnlyPrefix(h, ys, n);
      HashAloneCatchesExcision(h, xs, shorter);
      assert Occurs(ys[n], xs);
      var j :| 0 <= j < |xs| && SameCovered(ys[n], xs[j]);
      assert HashMatches(h, ys, n) && HashMatches(h, xs, j);
      assert n > 0 ==> SameCovered(shorter[n-1], xs[n-1]);
      PrevIsUnique(h, xs, n, j);
      forall k | 0 <= k < |ys| ensures SameCovered(ys[k], xs[k]) {
        if k < n {
          assert SameCovered(shorter[k], xs[k]);
        }
      }
    }
  }

  /** The tip hash, recomputed, determines everything the hashes cover. */
  lemma {:induction false} TipDeterminesCovered(h: Hasher, xs: seq<Row>, ys: seq<Row>)
    requires Injective(h) && AvoidsGenesis(h)
    requires HashOnlyVerified(h, xs) && HashOnlyVerified(h, ys)
    requires Tip(xs) == Tip(ys)
    ensures |xs| == |ys|
    ensures forall k :: 0 <= k < |xs| ==> SameCovered(xs[k], ys[k])
  {
    assert xs != [] ==> HashMatches(h, xs, |xs| - 1);
    assert ys != [] ==> HashMatches(h, ys, |ys| - 1);
    if xs != [] && ys != [] {
      var x, y := xs[..|xs|-1], ys[..|ys|-1];
      HashOnlyPrefix(h, xs, |x|);
      HashOnlyPrefix(h, ys, |y|);
      TipDeterminesCovered(h, x, y);
      forall k | 0 <= k < |xs| ensures SameCovered(xs[k], ys[k]) {
        if k < |x| {
          assert SameCovered(x[k], y[k]);
        }
      }
    }
  }

  lemma VerifiedIsBoth(h: Hasher, rows: seq<Row>)
    ensures Verified(h, rows)
            <==> HashOnlyVerified(h, rows) && forall k :: 0 <= k < |rows| ==> PrevMatches(rows, k)
  {
    if Verified(h, rows) {
      forall k | 0 <= k < |rows| ensures HashMatches(h, rows, k) && PrevMatches(rows, k) {
        assert Linked(h, rows, k);
      }
    }
  }

  /** With the comparison as well, every column but the number is the same. */
  lemma CoveredIsWhole(h: Hasher, xs: seq<Row>, ys: seq<Row>)
    requires Verified(h, xs) && Verified(h, ys) && |ys| <= |xs|
    requires forall k :: 0 <= k < |ys| ==> SameCovered(ys[k], xs[k])
    ensures forall k :: 0 <= k < |ys| ==> SameRow(ys[k], xs[k])
  {
    forall k | 0 <= k < |ys| ensures SameRow(ys[k], xs[k]) {
      assert Linked(h, xs, k) && Linked(h, ys, k);
      assert k > 0 ==> SameCovered(ys[k-1], xs[k-1]);
    }
  }

  /** The checker accepts a selection of a verified log's rows, in any order, only
      if it is a prefix. */
  lemma UnmodifiedRowsFormPrefix(h: Hasher, xs: seq<Row>, ys: seq<Row>)
    requires Injective(h) && AvoidsGenesis(h) && Verified(h, xs) && Verified(h, ys)
    requires forall k :: 0 <= k < |ys| ==> Occurs(ys[k], xs)
    ensures |ys| <= |xs|
    ensures forall k :: 0 <= k < |ys| ==> SameRow(ys[k], xs[k])
  {
    VerifiedIsBoth(h, xs);
    VerifiedIsBoth(h, ys);
    HashAloneCatchesExcision(h, xs, ys);
    CoveredIsWhole(h, xs, ys);
  }

  /** The tip hash of a verified log determines the whole log. */
  lemma TipDeterminesLog(h: Hasher, xs: seq<Row>, ys: seq<Row>)
    requires Injective(h) && AvoidsGenesis(h) && Verified(h, xs) && Verified(h, ys)
    requires Tip(xs) == Tip(ys)
    ensures |xs| == |ys|
    ensures forall k :: 0 <= k < |xs| ==> SameRow(xs[k], ys[k])
  {
    VerifiedIsBoth(h, xs);
    VerifiedIsBoth(h, ys);
    TipDeterminesCovered(h, xs, ys);
    CoveredIsWhole(h, ys, xs);
  }

  /** Editing any covered column of one row is noticed at that very row. */
  lemma EditedRowIsCaught(h: Hasher, xs: seq<Row>, k: nat, edited: Fields)
    requires Injective(h) && Verified(h, xs) && k < |xs| && edited != xs[k].fields
    ensures var ys := xs[k := xs[k].(fields := edited)];
            !Linked(h, ys, k) && forall j :: 0 <= j < k ==> Linked(h, ys, j)
  {
    assert Linked(h, xs, k);
    var ys := xs[k := xs[k].(fields := edited)];
    forall j | 0 <= j < k ensures Linked(h, ys, j) {
      assert Linked(h, xs, j);
    }
  }

  // ------------------------------------------------- are both checks needed?

  /** The comparison with the stored `prev_hash` is not redundant: rewriting that
      one column passes the recomputed hash and only this comparison sees it. */
  lemma PrevHashCheckIsNeeded(h: Hasher, xs: seq<Row>, k: nat, rewritten: Hash)
    requires Verified(h, xs) && k < |xs| && rewritten != xs[k].prevHash
    ensures HashOnlyVerified(h, xs[k := xs[k].(prevHash := rewritten)])
    ensures !Verified(h, xs[k := xs[k].(prevHash := rewritten)])
  {
    var ys := xs[k := xs[k].(prevHash := rewritten)];
    forall j | 0 <= j < |ys| ensures HashMatches(h, ys, j) {
      assert Linked(h, xs, j);
    }
    assert Linked(h, xs, k);
    assert !Linked(h, ys, k);
  }

  /** What a rewritten log shares with a verified one of the same tip when only the
      recomputed hashes are checked: all that the hashes cover, and the comparison
      then refuses it exactly if some stored `prev_hash` was rewritten. */
  lemma PrevHashCheckAddsExactly(h: Hasher, xs: seq<Row>, ys: seq<Row>)
    requires Injective(h) && AvoidsGenesis(h) && Verified(h, xs)
    requires HashOnlyVerified(h, ys) && Tip(ys) == Tip(xs)
    ensures |ys| == |xs| && forall k :: 0 <= k < |xs| ==> SameCovered(ys[k], xs[k])
    ensures !Verified(h, ys) <==> exists k :: 0 <= k < |xs| && ys[k].prevHash != xs[k].prevHash
  {
    VerifiedIsBoth(h, xs);
    VerifiedIsBoth(h, ys);
    TipDeterminesCovered(h, ys, xs);
    forall k | 0 <= k < |xs| ensures PrevMatches(ys, k) <==> ys[k].prevHash == xs[k].prevHash {
      assert PrevMatches(xs, k);
      assert k > 0 ==> SameCovered(ys[k-1], xs[k-1]);
    }
  }
}
