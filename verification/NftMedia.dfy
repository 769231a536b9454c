/**
 The capped store of NFT thumbnails (src/cache/nftmedia.js): over the cap, the least recently served go
 until the total is at 90% of it.
 */
module NftMedia {
  import opened Collections
  import opened Sums

  /** The rows read and deleted at a time. */
  const EVICT_BATCH := 64

  datatype Media = Media(hash: string, sizeBytes: int, lastAccess: int)

  /** The rows by id, and the names in the media directory. */
  datatype State = State(rows: map<int, Media>, files: set<string>)

  function Sizes(rows: map<int, Media>): map<int, int> {
    map id | id in rows :: rows[id].sizeBytes
  }

  ghost function Total(rows: map<int, Media>): int {
    Sum(Sizes(rows))
  }

  /** The access order; the index breaks ties by id. */
  predicate Before(rows: map<int, Media>, i: int, j: int)
    requires i in rows && j in rows
  {
    rows[i].lastAccess < rows[j].lastAccess || (rows[i].lastAccess == rows[j].lastAccess && i < j)
  }

  predicate IsOldest(rows: map<int, Media>, id: int) {
    id in rows && forall j :: j in rows && j != id ==> Before(rows, id, j)
  }

  lemma {:induction false} OldestExists(rows: map<int, Media>)
    requires rows != map[]
    ensures exists id :: IsOldest(rows, id)
    decreases rows.Keys
  {
    var k := SomeKey(Sizes(rows));
    var rest := Without(rows, k);
    if rest == map[] {
      assert forall j :: j in rows && j != k ==> j in rest;
      assert IsOldest(rows, k);
    } else {
      assert k in rows.Keys && rest.Keys == rows.Keys - {k};
      OldestExists(rest);
      var m :| IsOldest(rest, m);
      assert IsOldest(rows, if Before(rows, k, m) then k else m) by {
        forall j | j in rows && j != k && j != m ensures Before(rows, m, j) { assert j in rest && Before(rest, m, j); }
      }
    }
  }

  function Oldest(rows: map<int, Media>): (id: int)
    requires rows != map[]
    ensures IsOldest(rows, id)
  {
    OldestExists(rows);
    var id :| IsOldest(rows, id);
    id
  }

  predicate StartsWith(s: string, prefix: string) {
    |prefix| <= |s| && s[..|prefix|] == prefix
  }

  /** The directory without any variant of one thumbnail. */
  function WithoutFilesOf(files: set<string>, hash: string): set<string> {
    set f | f in files && !StartsWith(f, hash + "@")
  }

  function EvictOne(s: State, id: int): State
    requires id in s.rows
  {
    State(Without(s.rows, id), WithoutFilesOf(s.files, s.rows[id].hash))
  }

  /** One by one in access order, until the total is at the target. */
  ghost function Evict(s: State, target: int): State
    decreases s.rows.Keys
  {
    if Total(s.rows) <= target || s.rows == map[] then s
    else
      var id := Oldest(s.rows);
      assert id in s.rows.Keys && Without(s.rows, id).Keys == s.rows.Keys - {id};
      Evict(EvictOne(s, id), target)
  }

  /** 90% of the cap, rounded down. */
  function Target(maxBytes: int): int {
    maxBytes * 9 / 10
  }

  /** The double nearest to 0.9, by which the source multiplies. */
  const NINE_TENTHS: real := 8106479329266893.0 / 9007199254740992.0

  /** What rounding to the nearest double keeps to: one part in 2^53, and no integer is crossed. */
  predicate RoundsTo(x: real, f: real) {
    -x / 9007199254740992.0 <= f - x <= x / 9007199254740992.0 && x.Floor as real <= f
  }

  /** For caps up to 10^14 bytes the floored floating-point product is the exact target. */
  lemma TargetIsFlooredProduct(maxBytes: int, product: real)
    requires 0 <= maxBytes <= 100_000_000_000_000 && RoundsTo(maxBytes as real * NINE_TENTHS, product)
    ensures product.Floor == Target(maxBytes)
  {
    var n, k := maxBytes as real, Target(maxBytes);
    var x := n * NINE_TENTHS;
    assert 10 * k <= 9 * maxBytes <= 10 * k + 9;
    assert n * 0.9 <= x <= n * 0.9 + 0.01;
    assert k as real <= x && k <= x.Floor;
    assert x / 9007199254740992.0 <= 0.02;
  }

  ghost function AfterCheck(s: State, maxBytes: int): State {
    if Total(s.rows) <= maxBytes then s else Evict(s, Target(maxBytes))
  }

  // ---- What an eviction leaves ----

  lemma OldestGone(rows: map<int, Media>)
    requires rows != map[]
    ensures Oldest(rows) in rows.Keys && Without(rows, Oldest(rows)).Keys == rows.Keys - {Oldest(rows)}
  {
  }

  /** The total ends at or below the target, or nothing is left. */
  lemma {:induction false} EvictReaches(s: State, target: int)
    ensures Total(Evict(s, target).rows) <= target || Evict(s, target).rows == map[]
    decreases s.rows.Keys
  {
    hide Before, IsOldest, Total;
    if Total(s.rows) > target && s.rows != map[] {
      OldestGone(s.rows);
      EvictReaches(EvictOne(s, Oldest(s.rows)), target);
    }
  }

  lemma {:induction false} EvictShrinks(s: State, target: int)
    ensures forall id :: id in Evict(s, target).rows ==> id in s.rows && Evict(s, target).rows[id] == s.rows[id]
    decreases s.rows.Keys
  {
    hide Before, IsOldest, Total;
    if Total(s.rows) > target && s.rows != map[] {
      OldestGone(s.rows);
      EvictShrinks(EvictOne(s, Oldest(s.rows)), target);
    }
  }

  /** What goes was served before what stays. */
  lemma {:induction false} EvictsOldestFirst(s: State, target: int, gone: int, kept: int)
    requires gone in s.rows && gone !in Evict(s, target).rows && kept in Evict(s, target).rows
    ensures kept in s.rows && Before(s.rows, gone, kept)
    decreases s.rows.Keys
  {
    hide Total;
    EvictShrinks(s, target);
    if Total(s.rows) > target && s.rows != map[] {
      OldestGone(s.rows);
      var id := Oldest(s.rows);
      EvictShrinks(EvictOne(s, id), target);
      if gone != id {
        EvictsOldestFirst(EvictOne(s, id), target, gone, kept);
      }
    }
  }

  /** No more goes than must: with the last one back, the total is above the target. */
  lemma {:induction false} EvictsNoMore(s: State, target: int) returns (last: int)
    requires Evict(s, target) != s
    ensures last in s.rows && last !in Evict(s, target).rows
    ensures Total(Evict(s, target).rows[last := s.rows[last]]) > target
    ensures forall gone :: gone in s.rows && gone !in Evict(s, target).rows && gone != last ==>
      Before(s.rows, gone, last)
    decreases s.rows.Keys
  {
    hide Total;
    var id := Oldest(s.rows);
    var next := EvictOne(s, id);
    OldestGone(s.rows);
    EvictShrinks(next, target);
    if Evict(next, target) == next {
      last := id;
      assert next.rows[id := s.rows[id]] == s.rows;
    } else {
      last := EvictsNoMore(next, target);
    }
  }

  /** A name starts with a hash and `@` only if it is that hash's. */
  lemma PrefixIsHash(hash: string, other: string, rest: string)
    requires |hash| == |other|
    ensures StartsWith(hash + "@" + rest, other + "@") <==> hash == other
  {
    var name := hash + "@" + rest;
    assert name[..|hash|] == hash && name[..|hash| + 1] == hash + "@";
    if StartsWith(name, other + "@") {
      assert (other + "@")[..|other|] == other;
    }
  }

  /** Hashes are of one length and unique. */
  ghost predicate HashesUnique(rows: map<int, Media>) {
    (forall i, j :: i in rows && j in rows && rows[i].hash == rows[j].hash ==> i == j)
    && (forall i, j :: i in rows && j in rows ==> |rows[i].hash| == |rows[j].hash|)
  }

  /** A stored thumbnail keeps its files exactly if it stays. */
  lemma {:induction false} FilesFollowRows(s: State, target: int, id: int, rest: string)
    requires HashesUnique(s.rows) && id in s.rows && s.rows[id].hash + "@" + rest in s.files
    ensures s.rows[id].hash + "@" + rest in Evict(s, target).files <==> id in Evict(s, target).rows
    decreases s.rows.Keys
  {
    hide Total, Before, IsOldest, StartsWith;
    if Total(s.rows) > target && s.rows != map[] {
      OldestGone(s.rows);
      var oldest := Oldest(s.rows);
      PrefixIsHash(s.rows[id].hash, s.rows[oldest].hash, rest);
      EvictShrinks(EvictOne(s, oldest), target);
      if id == oldest {
        FilesShrink(EvictOne(s, oldest), target);
      } else {
        FilesFollowRows(EvictOne(s, oldest), target, id, rest);
      }
    }
  }

  lemma {:induction false} FilesShrink(s: State, target: int)
    ensures Evict(s, target).files <= s.files
    decreases s.rows.Keys
  {
    hide Total, Before, IsOldest, StartsWith;
    if Total(s.rows) > target && s.rows != map[] {
      OldestGone(s.rows);
      FilesShrink(EvictOne(s, Oldest(s.rows)), target);
    }
  }

  /** Up to the cap nothing is evicted; above it something is, down to 90% of the cap. */
  lemma CheckEvictsIff(s: State, maxBytes: int)
    requires maxBytes >= 0
    ensures Total(s.rows) <= maxBytes ==> AfterCheck(s, maxBytes) == s
    ensures Total(s.rows) > maxBytes ==>
      10 * Total(AfterCheck(s, maxBytes).rows) <= 9 * maxBytes && AfterCheck(s, maxBytes) != s
  {
    hide Total;
    EvictReaches(s, Target(maxBytes));
    TotalOfNone();
  }

  /** Checked again right away, nothing more goes, as long as the cap is not negative. */
  lemma CheckSettles(s: State, maxBytes: int)
    requires maxBytes >= 0
    ensures Total(AfterCheck(s, maxBytes).rows) <= maxBytes
    ensures AfterCheck(AfterCheck(s, maxBytes), maxBytes) == AfterCheck(s, maxBytes)
  {
    hide Total;
    EvictReaches(s, Target(maxBytes));
    TotalOfNone();
  }

  lemma TotalOfNone()
    ensures Total(map[]) == 0
  {
    assert Sizes(map[]) == map[];
  }

  // ---- The loop in batches ----

  /** The query: the first `n` rows in access order. */
  function OldestFirst(rows: map<int, Media>, n: int): seq<int>
    decreases n
  {
    if n <= 0 || rows == map[] then []
    else [Oldest(rows)] + OldestFirst(Without(rows, Oldest(rows)), n - 1)
  }

  lemma TotalWithout(rows: map<int, Media>, id: int)
    requires id in rows
    ensures Total(Without(rows, id)) == Total(rows) - rows[id].sizeBytes
  {
    SumRemove(Sizes(rows), id);
    assert Without(Sizes(rows), id) == Sizes(Without(rows, id));
  }

  lemma EvictUnfolds(s: State, target: int)
    requires Total(s.rows) > target && s.rows != map[]
    ensures Evict(s, target) == Evict(EvictOne(s, Oldest(s.rows)), target)
    ensures EvictOne(s, Oldest(s.rows)).rows == Without(s.rows, Oldest(s.rows))
  {
  }

  lemma BatchTail(rows: map<int, Media>, n: int, victims: seq<int>)
    requires victims == OldestFirst(rows, n) && victims != []
    ensures rows != map[] && victims[0] == Oldest(rows) && victims[0] in rows
    ensures victims[1..] == OldestFirst(Without(rows, Oldest(rows)), n - 1)
  {
    hide Before;
  }

  class MediaCache {
    var rows: map<int, Media>
    var files: set<string>

    ghost function Snapshot(): State
      reads this
    {
      State(rows, files)
    }

    method TotalBytes() returns (total: int)
      ensures total == Total(rows)
    {
      total := 0;
      var rest := Sizes(rows);
      while rest != map[]
        invariant total + Sum(rest) == Total(rows)
        decreases rest.Keys
      {
        assert rest.Keys != {};
        var id := Least(rest.Keys);
        SumRemove(rest, id);
        assert id in rest.Keys && Without(rest, id).Keys == rest.Keys - {id};
        total := total + rest[id];
        rest := Without(rest, id);
      }
    }

    method Remove(id: int)
      requires id in rows
      modifies this
      ensures Snapshot() == EvictOne(old(Snapshot()), id)
      ensures |rows| == |old(rows)| - 1 && rows.Keys < old(rows).Keys
    {
      assert Without(rows, id).Keys == rows.Keys - {id};
      files := WithoutFilesOf(files, rows[id].hash);
      rows := Without(rows, id);
    }

    /** Goes through one batch, until the target is met. */
    method EvictBatch(victims: seq<int>, target: int, before: int) returns (total: int, evicted: int)
      requires victims == OldestFirst(rows, EVICT_BATCH) && victims != [] && before == Total(rows) && before > target
      modifies this
      ensures total == Total(rows) && Evict(Snapshot(), target) == Evict(old(Snapshot()), target)
      ensures evicted == |old(rows)| - |rows| && evicted > 0
      ensures rows.Keys < old(rows).Keys
    {
      hide Total, Evict, OldestFirst, Oldest, WithoutFilesOf, Sizes;
      total, evicted := before, 0;
      ghost var start := Snapshot();
      for i := 0 to |victims|
        invariant victims[i..] == OldestFirst(rows, EVICT_BATCH - i)
        invariant total == Total(rows) && (i < |victims| ==> total > target)
        invariant Evict(Snapshot(), target) == Evict(start, target)
        invariant evicted == i && evicted == |start.rows| - |rows|
        invariant rows.Keys <= start.rows.Keys && (i > 0 ==> rows.Keys < start.rows.Keys)
      {
        var victim := victims[i];
        BatchTail(rows, EVICT_BATCH - i, victims[i..]);
        assert victims[i..][1..] == victims[i + 1..];
        TotalWithout(rows, victim);
        EvictUnfolds(Snapshot(), target);
        total := total - rows[victim].sizeBytes;
        Remove(victim);
        evicted := evicted + 1;
        if total <= target {
          break;
        }
      }
    }

    method EvictIfNeeded(maxBytes: int) returns (evicted: int)
      modifies this
      ensures Snapshot() == AfterCheck(old(Snapshot()), maxBytes)
      ensures evicted == |old(rows)| - |rows|
    {
      hide Total, Before, IsOldest, OldestFirst;
      var total := TotalBytes();
      if total <= maxBytes {
        return 0;
      }
      var target := Target(maxBytes);
      ghost var start := Snapshot();
      evicted := 0;
      while total > target
        invariant total == Total(rows) && evicted == |start.rows| - |rows|
        invariant Evict(Snapshot(), target) == Evict(start, target)
        decreases rows.Keys
      {
        var victims := OldestFirst(rows, EVICT_BATCH);
        assert victims == [] <==> rows == map[] by { BatchEmptyIff(rows); }
        if |victims| == 0 {
          break;
        }
        var n: int;
        total, n := EvictBatch(victims, target, total);
        evicted := evicted + n;
      }
    }
  }

  lemma BatchEmptyIff(rows: map<int, Media>)
    ensures OldestFirst(rows, EVICT_BATCH) == [] <==> rows == map[]
  {
  }
}
