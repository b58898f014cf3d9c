/** The merge pass (`main`): for each page batch of the snapshot, and for
    each ordered pair of products of that same batch, add the second product
    as a variant of the first when both titles carry the family marker and
    the titles differ. The first call whose success flag is false aborts the
    whole pass.

    The write endpoint is replaced by a finite sequence of outcomes: the k-th
    call of the pass receives the k-th outcome. Past the end of the sequence
    every call fails as a transport error would. */
module Merge {
  import opened Catalog
  import opened Text

  /** The literal substring that marks a product as one of the family. */
  const FamilyMarker: string := "Pet Premium Jersey"

  /** One variant mutation: add a variant with image `imageId` and option
      label `option1` to the product with identifier `productId`. */
  datatype VariantCall = VariantCall(productId: int, imageId: int, option1: string)

  /** How one call to the variant-creation endpoint went. The request could
      not be built, the transport failed, the response body could not be
      read, or a response with some status code was read in full. */
  datatype WriteOutcome = RequestNotBuilt | TransportFailure | BodyUnreadable | Delivered(status: int)

  /** The outcome the k-th call receives. */
  function Outcome(outcomes: seq<WriteOutcome>, k: nat): WriteOutcome
  {
    if k < |outcomes| then outcomes[k] else TransportFailure
  }

  /** `AddVariantToExisting`: returns the call attempted with its three
      arguments and reports the flag. When the outcome is `RequestNotBuilt`
      no request goes out, yet the attempt is still the one the pass counts.
      The flag is false after each of the three error returns and true once
      a response body has been read, whatever its status code: a 4xx or 5xx
      reply counts as success. */
  method AddVariantToExisting(imageId: int, varName: string, productId: int, outcome: WriteOutcome)
    returns (call: VariantCall, ok: bool)
    ensures call == VariantCall(productId, imageId, varName)
    ensures ok <==> outcome.Delivered?
  {
    call := VariantCall(productId, imageId, varName);
    ok := true;
    if outcome == RequestNotBuilt {
      return call, !ok;
    }
    if outcome == TransportFailure {
      return call, !ok;
    }
    if outcome == BodyUnreadable {
      return call, !ok;
    }
    return call, ok;
  }

  predicate InFamily(p: Product)
  {
    Contains(p.title, FamilyMarker)
  }

  /** The rule of the inner loop body: the outer product `p` receives the
      inner product `q` as a variant. */
  predicate Pairable(p: Product, q: Product)
  {
    InFamily(p) && InFamily(q) && q.title != p.title
  }

  /** The call made for a pair: target `p`, image and label taken from `q`. */
  function CallFor(p: Product, q: Product): VariantCall
  {
    VariantCall(p.id, q.imageId, q.title)
  }

  /** The calls for outer product `p` once the inner loop has run over the
      first `n` products of `batch`. */
  function RowCalls(p: Product, batch: Page, n: nat): seq<VariantCall>
    requires n <= |batch|
  {
    if n == 0 then []
    else RowCalls(p, batch, n - 1) + if Pairable(p, batch[n - 1]) then [CallFor(p, batch[n - 1])] else []
  }

  /** The calls within `batch` once the outer loop has run over its first
      `n` products. */
  function OuterCalls(batch: Page, n: nat): seq<VariantCall>
    requires n <= |batch|
  {
    if n == 0 then []
    else OuterCalls(batch, n - 1) + RowCalls(batch[n - 1], batch, |batch|)
  }

  /** Every call one batch gives rise to, in loop order. */
  function BatchCalls(batch: Page): seq<VariantCall>
  {
    OuterCalls(batch, |batch|)
  }

  /** The calls of the first `n` batches, batch by batch, in loop order. */
  function CallsUpTo(snapshot: seq<Page>, n: nat): seq<VariantCall>
    requires n <= |snapshot|
  {
    if n == 0 then []
    else CallsUpTo(snapshot, n - 1) + BatchCalls(snapshot[n - 1])
  }

  /** Every call the snapshot gives rise to. Batches are not flattened:
      products of different batches are never paired. */
  function SnapshotCalls(snapshot: seq<Page>): seq<VariantCall>
  {
    CallsUpTo(snapshot, |snapshot|)
  }

  lemma {:induction false} RowCallsPrefix(p: Product, batch: Page, m: nat, n: nat)
    requires m <= n <= |batch|
    ensures RowCalls(p, batch, m) <= RowCalls(p, batch, n)
    decreases n
  {
    if m < n {
      RowCallsPrefix(p, batch, m, n - 1);
    }
  }

  lemma {:induction false} OuterCallsPrefix(batch: Page, m: nat, n: nat)
    requires m <= n <= |batch|
    ensures OuterCalls(batch, m) <= OuterCalls(batch, n)
    decreases n
  {
    if m < n {
      OuterCallsPrefix(batch, m, n - 1);
    }
  }

  lemma {:induction false} CallsUpToPrefix(snapshot: seq<Page>, m: nat, n: nat)
    requires m <= n <= |snapshot|
    ensures CallsUpTo(snapshot, m) <= CallsUpTo(snapshot, n)
    decreases n
  {
    if m < n {
      CallsUpToPrefix(snapshot, m, n - 1);
    }
  }

  lemma PrefixUnder<T>(a: seq<T>, b: seq<T>, c: seq<T>, d: seq<T>)
    requires b <= c && a + c <= d
    ensures a + b <= d
  {
    assert (a + c)[..|a + b|] == a + b;
  }

  predicate AllDelivered(outcomes: seq<WriteOutcome>, n: nat)
  {
    forall k :: 0 <= k < n ==> Outcome(outcomes, k).Delivered?
  }

  /** What one stretch of the pass does when `done` calls were made before
      it and it plans the calls `planned`: the calls made extend `done` by a
      prefix of `planned`; every call made so far succeeded except, when the
      pass aborted, the very last one, which failed; an aborted stretch made
      at least one call, and a stretch that did not abort made all of
      `planned`. */
  predicate Replayed(done: seq<VariantCall>, planned: seq<VariantCall>, outcomes: seq<WriteOutcome>,
                     issued: seq<VariantCall>, aborted: bool)
  {
    |done| <= |issued| && issued[..|done|] == done && issued[|done|..] <= planned &&
    (forall k :: 0 <= k < |issued| ==>
      (Outcome(outcomes, k).Delivered? <==> !(aborted && k == |issued| - 1))) &&
    (aborted ==> |issued| > |done|) &&
    (!aborted ==> issued == done + planned)
  }

  /** The innermost loop of `main` for one outer product `p`: offer every
      product of the batch to `p`, after the calls `done`. */
  method OfferVariants(p: Product, batch: Page, outcomes: seq<WriteOutcome>, done: seq<VariantCall>)
    returns (issued: seq<VariantCall>, aborted: bool)
    requires AllDelivered(outcomes, |done|)
    ensures Replayed(done, RowCalls(p, batch, |batch|), outcomes, issued, aborted)
  {
    issued, aborted := done, false;
    var z := 0;
    while z < |batch|
      invariant 0 <= z <= |batch|
      invariant issued == done + RowCalls(p, batch, z)
      invariant AllDelivered(outcomes, |issued|)
    {
      if Contains(p.title, FamilyMarker) && Contains(batch[z].title, FamilyMarker)
         && batch[z].title != p.title
      {
        var call, ok := AddVariantToExisting(batch[z].imageId, batch[z].title, p.id, Outcome(outcomes, |issued|));
        assert done + (RowCalls(p, batch, z) + [call]) == issued + [call];
        issued := issued + [call];
        if !ok {
          aborted := true;
          assert issued[|done|..] <= RowCalls(p, batch, |batch|) by {
            RowCallsPrefix(p, batch, z + 1, |batch|);
            assert issued[|done|..] == RowCalls(p, batch, z + 1);
          }
          return;
        }
      }
      z := z + 1;
    }
    assert issued[|done|..] == RowCalls(p, batch, |batch|);
  }

  /** An aborted stretch planning `second` after `done + first`, where
      `first + second` is a prefix of `planned`, is an aborted stretch
      planning `planned` after `done`. */
  lemma AbortedWithin(done: seq<VariantCall>, first: seq<VariantCall>, second: seq<VariantCall>,
                      planned: seq<VariantCall>, outcomes: seq<WriteOutcome>, issued: seq<VariantCall>)
    requires first + second <= planned
    requires Replayed(done + first, second, outcomes, issued, true)
    ensures Replayed(done, planned, outcomes, issued, true)
  {
    assert issued[..|done + first|][..|done|] == issued[..|done|];
    assert issued[|done|..] == first + issued[|done + first|..];
    PrefixUnder(first, issued[|done + first|..], second, planned);
  }

  /** The middle loop of `main` for one batch: every product of the batch
      in turn as the outer product, after the calls `done`. */
  method MergeBatch(batch: Page, outcomes: seq<WriteOutcome>, done: seq<VariantCall>)
    returns (issued: seq<VariantCall>, aborted: bool)
    requires AllDelivered(outcomes, |done|)
    ensures Replayed(done, BatchCalls(batch), outcomes, issued, aborted)
  {
    issued, aborted := done, false;
    var j := 0;
    while j < |batch|
      invariant 0 <= j <= |batch|
      invariant issued == done + OuterCalls(batch, j)
      invariant AllDelivered(outcomes, |issued|)
    {
      issued, aborted := OfferVariants(batch[j], batch, outcomes, issued);
      assert OuterCalls(batch, j + 1) == OuterCalls(batch, j) + RowCalls(batch[j], batch, |batch|);
      if aborted {
        assert Replayed(done, BatchCalls(batch), outcomes, issued, aborted) by {
          OuterCallsPrefix(batch, j + 1, |batch|);
          AbortedWithin(done, OuterCalls(batch, j), RowCalls(batch[j], batch, |batch|), BatchCalls(batch), outcomes, issued);
        }
        return;
      }
      assert issued == done + OuterCalls(batch, j + 1);
      j := j + 1;
    }
    assert issued[|done|..] == BatchCalls(batch);
  }

  /** The nested loops of `main`. Every batch is paired only with itself;
      for each outer index `j` the inner index `z` runs over the whole
      batch; a false flag stops everything at once. */
  method MergePass(snapshot: seq<Page>, outcomes: seq<WriteOutcome>)
    returns (issued: seq<VariantCall>, aborted: bool)
    ensures issued <= SnapshotCalls(snapshot)
    ensures forall k :: 0 <= k < |issued| ==>
      (Outcome(outcomes, k).Delivered? <==> !(aborted && k == |issued| - 1))
    ensures aborted ==> issued != []
    ensures !aborted ==> issued == SnapshotCalls(snapshot)
  {
    issued, aborted := [], false;
    var i := 0;
    while i < |snapshot|
      invariant 0 <= i <= |snapshot|
      invariant issued == CallsUpTo(snapshot, i)
      invariant AllDelivered(outcomes, |issued|)
    {
      issued, aborted := MergeBatch(snapshot[i], outcomes, issued);
      if aborted {
        assert Replayed([], SnapshotCalls(snapshot), outcomes, issued, aborted) by {
          CallsUpToPrefix(snapshot, i + 1, |snapshot|);
          AbortedWithin([], CallsUpTo(snapshot, i), BatchCalls(snapshot[i]), SnapshotCalls(snapshot), outcomes, issued);
        }
        return;
      }
      i := i + 1;
    }
  }

  // The pairing rule

  lemma {:induction false} RowCallsMembers(p: Product, batch: Page, n: nat, c: VariantCall)
    requires n <= |batch|
    ensures c in RowCalls(p, batch, n) <==>
      exists z :: 0 <= z < n && Pairable(p, batch[z]) && c == CallFor(p, batch[z])
    decreases n
  {
    if n > 0 {
      RowCallsMembers(p, batch, n - 1, c);
    }
  }

  /** The call of the pair (p, batch[z]) with z < n is in the row. */
  lemma {:induction false} RowCallsComplete(p: Product, batch: Page, n: nat, z: int, c: VariantCall)
    requires 0 <= z < n <= |batch| && Pairable(p, batch[z]) && c == CallFor(p, batch[z])
    ensures c in RowCalls(p, batch, n)
    decreases n
  {
    if z < n - 1 {
      RowCallsComplete(p, batch, n - 1, z, c);
    }
  }

  /** `c` is the call made for the ordered pair (j, z) of `batch`. */
  predicate IsCallOf(batch: Page, j: int, z: int, c: VariantCall)
  {
    0 <= j < |batch| && 0 <= z < |batch| && Pairable(batch[j], batch[z]) && c == CallFor(batch[j], batch[z])
  }

  /** Every call among the first n rows is the call of some pair (j, z)
      with j < n. */
  lemma InConcat<T>(x: T, a: seq<T>, b: seq<T>)
    ensures x in a + b <==> x in a || x in b
  {
  }

  /** Every call among the first n rows is the call of some pair (j, z)
      with j < n. */
  lemma {:induction false} OuterCallsSound(batch: Page, n: nat, c: VariantCall)
    requires n <= |batch| && c in OuterCalls(batch, n)
    ensures exists j, z :: j < n && IsCallOf(batch, j, z, c)
    decreases n
  {
    var earlier, row := OuterCalls(batch, n - 1), RowCalls(batch[n - 1], batch, |batch|);
    assert c in earlier || c in row by {
      assert OuterCalls(batch, n) == earlier + row;
      InConcat(c, earlier, row);
    }
    if c in earlier {
      assert exists j, z :: j < n - 1 && IsCallOf(batch, j, z, c) by {
        OuterCallsSound(batch, n - 1, c);
      }
      var j, z :| j < n - 1 && IsCallOf(batch, j, z, c);
      assert j < n && IsCallOf(batch, j, z, c);
    } else {
      var p := batch[n - 1];
      assert exists z :: 0 <= z < |batch| && Pairable(p, batch[z]) && c == CallFor(p, batch[z]) by {
        RowCallsMembers(p, batch, |batch|, c);
      }
      var z :| 0 <= z < |batch| && Pairable(p, batch[z]) && c == CallFor(p, batch[z]);
      assert IsCallOf(batch, n - 1, z, c);
    }
  }

  lemma InPrefix<T>(x: T, a: seq<T>, b: seq<T>)
    requires x in a && a <= b
    ensures x in b
  {
    assert b[..|a|] == a;
  }

  /** The call of every pair (j, z) with j < n is among the first n rows:
      it is in row j, which closes the first j + 1 rows, a prefix of the
      first n. */
  lemma OuterCallsComplete(batch: Page, n: nat, j: int, z: int, c: VariantCall)
    requires n <= |batch| && j < n && IsCallOf(batch, j, z, c)
    ensures c in OuterCalls(batch, n)
  {
    var upto := OuterCalls(batch, j + 1);
    assert c in upto by {
      var row := RowCalls(batch[j], batch, |batch|);
      assert upto == OuterCalls(batch, j) + row;
      RowCallsComplete(batch[j], batch, |batch|, z, c);
      InConcat(c, OuterCalls(batch, j), row);
    }
    assert upto <= OuterCalls(batch, n) by {
      OuterCallsPrefix(batch, j + 1, n);
    }
    InPrefix(c, upto, OuterCalls(batch, n));
  }

  lemma OuterCallsMembers(batch: Page, n: nat, c: VariantCall)
    requires n <= |batch|
    ensures c in OuterCalls(batch, n) <==> exists j, z :: j < n && IsCallOf(batch, j, z, c)
  {
    if c in OuterCalls(batch, n) {
      OuterCallsSound(batch, n, c);
    }
    if exists j, z :: j < n && IsCallOf(batch, j, z, c) {
      var j, z :| j < n && IsCallOf(batch, j, z, c);
      OuterCallsComplete(batch, n, j, z, c);
    }
  }

  lemma {:induction false} CallsUpToMembers(snapshot: seq<Page>, n: nat, c: VariantCall)
    requires n <= |snapshot|
    ensures c in CallsUpTo(snapshot, n) <==> exists i, j, z :: 0 <= i < n && IsCallOf(snapshot[i], j, z, c)
    decreases n
  {
    if n > 0 {
      var batch, earlier := snapshot[n - 1], CallsUpTo(snapshot, n - 1);
      assert CallsUpTo(snapshot, n) == earlier + BatchCalls(batch);
      CallsUpToMembers(snapshot, n - 1, c);
      OuterCallsMembers(batch, |batch|, c);
      if c in BatchCalls(batch) {
        var j, z :| j < |batch| && IsCallOf(batch, j, z, c);
        assert IsCallOf(snapshot[n - 1], j, z, c);
      }
      if c in earlier {
        var i, j, z :| 0 <= i < n - 1 && IsCallOf(snapshot[i], j, z, c);
        assert 0 <= i < n && IsCallOf(snapshot[i], j, z, c);
      }
      if exists i, j, z :: 0 <= i < n && IsCallOf(snapshot[i], j, z, c) {
        var i, j, z :| 0 <= i < n && IsCallOf(snapshot[i], j, z, c);
        if i == n - 1 {
          assert c in BatchCalls(batch);
        } else {
          assert c in earlier;
        }
      }
    }
  }

  /** A call is made exactly for an ordered pair of products of one and the
      same batch whose titles both carry the family marker and differ; the
      call targets the first product with the second's image and title. */
  lemma SnapshotCallsMembers(snapshot: seq<Page>, c: VariantCall)
    ensures c in SnapshotCalls(snapshot) <==>
      exists i, j, z :: 0 <= i < |snapshot| && 0 <= j < |snapshot[i]| && 0 <= z < |snapshot[i]| &&
        Pairable(snapshot[i][j], snapshot[i][z]) && c == CallFor(snapshot[i][j], snapshot[i][z])
  {
    CallsUpToMembers(snapshot, |snapshot|, c);
    if c in SnapshotCalls(snapshot) {
      var i, j, z :| 0 <= i < |snapshot| && IsCallOf(snapshot[i], j, z, c);
      assert Pairable(snapshot[i][j], snapshot[i][z]) && c == CallFor(snapshot[i][j], snapshot[i][z]);
    }
    if exists i, j, z :: 0 <= i < |snapshot| && 0 <= j < |snapshot[i]| && 0 <= z < |snapshot[i]| &&
        Pairable(snapshot[i][j], snapshot[i][z]) && c == CallFor(snapshot[i][j], snapshot[i][z]) {
      var i, j, z :| 0 <= i < |snapshot| && 0 <= j < |snapshot[i]| && 0 <= z < |snapshot[i]| &&
        Pairable(snapshot[i][j], snapshot[i][z]) && c == CallFor(snapshot[i][j], snapshot[i][z]);
      assert IsCallOf(snapshot[i], j, z, c);
    }
  }

  /** A batch whose products all share one title makes no call at all: no
      product is paired with itself or with a product of the same title. */
  lemma SameTitlesNeverPaired(batch: Page)
    requires forall j, z :: 0 <= j < |batch| && 0 <= z < |batch| ==> batch[j].title == batch[z].title
    ensures BatchCalls(batch) == []
  {
    if BatchCalls(batch) != [] {
      OuterCallsMembers(batch, |batch|, BatchCalls(batch)[0]);
      assert false;
    }
  }

  // Counting the calls of one batch

  /** How many of the first `n` products of the batch are in the family. */
  function FamilySize(batch: Page, n: nat): nat
    requires n <= |batch|
  {
    if n == 0 then 0 else FamilySize(batch, n - 1) + if InFamily(batch[n - 1]) then 1 else 0
  }

  /** How many of the first `n` products of the batch are in the family and
      have title `t`. */
  function TitledFamilySize(batch: Page, n: nat, t: string): nat
    requires n <= |batch|
  {
    if n == 0 then 0
    else TitledFamilySize(batch, n - 1, t) + if InFamily(batch[n - 1]) && batch[n - 1].title == t then 1 else 0
  }

  /** No two family members of the batch share a title. */
  predicate DistinctFamilyTitles(batch: Page)
  {
    forall j, z :: 0 <= j < z < |batch| && InFamily(batch[j]) && InFamily(batch[z]) ==> batch[j].title != batch[z].title
  }

  lemma {:induction false} RowCallsCount(p: Product, batch: Page, n: nat)
    requires n <= |batch|
    ensures |RowCalls(p, batch, n)| == if InFamily(p) then FamilySize(batch, n) - TitledFamilySize(batch, n, p.title) else 0
    ensures TitledFamilySize(batch, n, p.title) <= FamilySize(batch, n)
    decreases n
  {
    if n > 0 {
      RowCallsCount(p, batch, n - 1);
    }
  }

  lemma {:induction false} TitledFamilySizeOfMember(batch: Page, n: nat, j: nat)
    requires n <= |batch| && j < |batch| && InFamily(batch[j]) && DistinctFamilyTitles(batch)
    ensures TitledFamilySize(batch, n, batch[j].title) == if j < n then 1 else 0
    decreases n
  {
    if n > 0 {
      TitledFamilySizeOfMember(batch, n - 1, j);
      var q := batch[n - 1];
      if n - 1 != j && InFamily(q) {
        assert q.title != batch[j].title by {
          if n - 1 < j {
            assert batch[n - 1].title != batch[j].title;
          } else {
            assert batch[j].title != batch[n - 1].title;
          }
        }
      }
    }
  }

  lemma MulSucc(a: int, m: int)
    ensures (a + 1) * m == a * m + m
  {
  }

  lemma {:induction false} OuterCallsCount(batch: Page, n: nat)
    requires n <= |batch| && DistinctFamilyTitles(batch)
    ensures FamilySize(batch, |batch|) >= 1 ==>
      |OuterCalls(batch, n)| == FamilySize(batch, n) * (FamilySize(batch, |batch|) - 1)
    ensures FamilySize(batch, |batch|) == 0 ==> |OuterCalls(batch, n)| == 0
    decreases n
  {
    if n > 0 {
      OuterCallsCount(batch, n - 1);
      var p, k := batch[n - 1], FamilySize(batch, |batch|);
      var before, row := FamilySize(batch, n - 1), RowCalls(p, batch, |batch|);
      assert |OuterCalls(batch, n)| == |OuterCalls(batch, n - 1)| + |row|;
      RowCallsCount(p, batch, |batch|);
      if InFamily(p) {
        TitledFamilySizeOfMember(batch, |batch|, n - 1);
        assert |row| == k - 1;
        MulSucc(before, k - 1);
      }
    }
  }

  /** A batch with k family members of pairwise distinct titles makes
      exactly k * (k - 1) calls: one for each ordered pair of two different
      members, whatever other products the batch holds. */
  lemma BatchCallCount(batch: Page)
    requires DistinctFamilyTitles(batch)
    ensures var k := FamilySize(batch, |batch|);
      |BatchCalls(batch)| == k * (k - 1)
  {
    OuterCallsCount(batch, |batch|);
  }

  // Aborting on the first failure

  /** How many calls a pass that plans `n` calls makes, counting from the
      k-th: it goes on while calls succeed and stops right after the first
      call that fails. */
  function CallsMade(n: nat, outcomes: seq<WriteOutcome>, k: nat): (made: nat)
    requires k <= n
    ensures k <= made <= n
    ensures made < n ==> 0 < made && !Outcome(outcomes, made - 1).Delivered?
    decreases n - k
  {
    if k == n then n
    else if !Outcome(outcomes, k).Delivered? then k + 1
    else CallsMade(n, outcomes, k + 1)
  }

  lemma {:induction false} CallsMadeAt(n: nat, outcomes: seq<WriteOutcome>, k: nat, m: nat)
    requires k <= m <= n
    requires forall j :: k <= j < m ==> Outcome(outcomes, j).Delivered?
    requires m < n ==> !Outcome(outcomes, m).Delivered?
    ensures CallsMade(n, outcomes, k) == if m == n then n else m + 1
    decreases m - k
  {
    if k < m {
      CallsMadeAt(n, outcomes, k + 1, m);
    }
  }

  /** What `MergePass` promises determines the calls made: they are the
      first `CallsMade` planned calls, and the pass aborts exactly when some
      planned call fails. Nothing is called after the first failure. */
  lemma ReplayIsDetermined(planned: seq<VariantCall>, outcomes: seq<WriteOutcome>,
                           issued: seq<VariantCall>, aborted: bool)
    requires issued <= planned
    requires forall k :: 0 <= k < |issued| ==>
      (Outcome(outcomes, k).Delivered? <==> !(aborted && k == |issued| - 1))
    requires aborted ==> issued != []
    requires !aborted ==> issued == planned
    ensures |issued| == CallsMade(|planned|, outcomes, 0)
    ensures issued == planned[..|issued|]
    ensures aborted <==> exists k :: 0 <= k < |planned| && !Outcome(outcomes, k).Delivered?
  {
    if aborted {
      CallsMadeAt(|planned|, outcomes, 0, |issued| - 1);
    } else {
      CallsMadeAt(|planned|, outcomes, 0, |planned|);
    }
  }

  /** When the third of five planned calls fails, exactly three calls are
      made and the pass aborts. */
  lemma ThirdOfFiveFails(planned: seq<VariantCall>, outcomes: seq<WriteOutcome>,
                         issued: seq<VariantCall>, aborted: bool)
    requires |planned| == 5
    requires outcomes == [Delivered(201), Delivered(201), TransportFailure, Delivered(201), Delivered(201)]
    requires issued <= planned
    requires forall k :: 0 <= k < |issued| ==>
      (Outcome(outcomes, k).Delivered? <==> !(aborted && k == |issued| - 1))
    requires aborted ==> issued != []
    requires !aborted ==> issued == planned
    ensures aborted && issued == planned[..3]
  {
    ReplayIsDetermined(planned, outcomes, issued, aborted);
    CallsMadeAt(5, outcomes, 0, 2);
  }

  // Worked examples

  /** Two jerseys of different colours pair both ways; the product outside
      the family is never involved. */
  lemma JerseyExample()
    ensures var red := Product(1, "Pet Premium Jersey - Red", 11);
      var blue := Product(2, "Pet Premium Jersey - Blue", 12);
      var other := Product(3, "Other Item", 13);
      BatchCalls([red, blue, other])
        == [VariantCall(1, 12, "Pet Premium Jersey - Blue"), VariantCall(2, 11, "Pet Premium Jersey - Red")]
  {
    var red := Product(1, "Pet Premium Jersey - Red", 11);
    var blue := Product(2, "Pet Premium Jersey - Blue", 12);
    var other := Product(3, "Other Item", 13);
    assert red.title[..|FamilyMarker|] == FamilyMarker;
    assert blue.title[..|FamilyMarker|] == FamilyMarker;
    assert InFamily(red) && InFamily(blue) && !InFamily(other);
    assert red.title != blue.title;
    var batch := [red, blue, other];
    assert RowCalls(red, batch, 1) == [];
    assert RowCalls(red, batch, 2) == [CallFor(red, blue)];
    assert RowCalls(red, batch, 3) == [CallFor(red, blue)];
    assert RowCalls(blue, batch, 1) == [CallFor(blue, red)];
    assert RowCalls(blue, batch, 2) == [CallFor(blue, red)];
    assert RowCalls(blue, batch, 3) == [CallFor(blue, red)];
    assert RowCalls(other, batch, 1) == [];
    assert RowCalls(other, batch, 2) == [];
    assert RowCalls(other, batch, 3) == [];
    assert OuterCalls(batch, 1) == [CallFor(red, blue)];
    assert OuterCalls(batch, 2) == OuterCalls(batch, 1) + RowCalls(batch[1], batch, 2);
  }

  /** Products of different batches are never paired: the same two jerseys
      make no call when they arrive in two pages, and two calls when they
      arrive in one. */
  lemma BatchesAreNotFlattened()
    ensures var red := Product(1, "Pet Premium Jersey - Red", 11);
      var blue := Product(2, "Pet Premium Jersey - Blue", 12);
      SnapshotCalls([[red], [blue]]) == [] && |SnapshotCalls([[red, blue]])| == 2
  {
    var red := Product(1, "Pet Premium Jersey - Red", 11);
    var blue := Product(2, "Pet Premium Jersey - Blue", 12);
    assert red.title[..|FamilyMarker|] == FamilyMarker;
    assert blue.title[..|FamilyMarker|] == FamilyMarker;
    assert InFamily(red) && InFamily(blue);
    assert red.title != blue.title;
    assert RowCalls(red, [red], 1) == [];
    assert RowCalls(blue, [blue], 1) == [];
    assert OuterCalls([red], 1) == [] && OuterCalls([blue], 1) == [];
    var snapshot := [[red], [blue]];
    assert CallsUpTo(snapshot, 1) == [];
    var batch := [red, blue];
    assert RowCalls(red, batch, 1) == [];
    assert RowCalls(red, batch, 2) == [CallFor(red, blue)];
    assert RowCalls(blue, batch, 1) == [CallFor(blue, red)];
    assert RowCalls(blue, batch, 2) == [CallFor(blue, red)];
    assert OuterCalls(batch, 1) == [CallFor(red, blue)];
    assert OuterCalls(batch, 2) == [CallFor(red, blue), CallFor(blue, red)];
    assert CallsUpTo([batch], 1) == BatchCalls(batch);
  }
}
