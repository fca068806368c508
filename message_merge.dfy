/**
 * The merge step of the backend's messages endpoint for an individual
 * contact: the rows received from the contact followed by the rows sent to
 * it are de-duplicated by id (first occurrence wins, rows without a truthy
 * id are always kept) and then sorted by timestamp with Python's stable
 * `list.sort`.
 */
module MessageMerge {
  import opened Wrappers
  import opened PyValues

  /** One message dictionary: its `id`, its `timestamp` (absent when the key
      is missing) and the remaining keys, carried along unchanged. */
  datatype Row = Row(id: PyValue, timestamp: Option<int>, fields: map<string, PyValue>)

  /** `x.get('timestamp', 0)`. */
  function TimestampKey(r: Row): int {
    r.timestamp.GetOr(0)
  }

  // ---------------------------------------------------------------------
  // De-duplication

  /** The `seen_ids` set after a pass over `s`: every truthy id, up to `==`. */
  function SeenIds(s: seq<Row>): set<PyValue> {
    if s == [] then {}
    else SeenIds(s[..|s| - 1]) + (if Truthy(s[|s| - 1].id) then {EqKey(s[|s| - 1].id)} else {})
  }

  lemma {:induction false} SeenIdsIff(s: seq<Row>, v: PyValue)
    ensures v in SeenIds(s) <==> exists j :: 0 <= j < |s| && Truthy(s[j].id) && EqKey(s[j].id) == v
  {
    if s != [] {
      var p := s[..|s| - 1];
      SeenIdsIff(p, v);
      if v in SeenIds(p) {
        var j :| 0 <= j < |p| && Truthy(p[j].id) && EqKey(p[j].id) == v;
        assert s[j] == p[j];
      }
      if exists j :: 0 <= j < |s| && Truthy(s[j].id) && EqKey(s[j].id) == v {
        var j :| 0 <= j < |s| && Truthy(s[j].id) && EqKey(s[j].id) == v;
        if j < |s| - 1 {
          assert p[j] == s[j];
        }
      }
    }
  }

  /** The rows the loop appends to `all_messages`, in order. */
  function Deduplicated(s: seq<Row>): seq<Row> {
    if s == [] then []
    else
      var prefix, m := s[..|s| - 1], s[|s| - 1];
      if Truthy(m.id) && EqKey(m.id) in SeenIds(prefix) then Deduplicated(prefix)
      else Deduplicated(prefix) + [m]
  }

  /** The row at `i` has a falsy id, or no earlier row has an equal id. */
  ghost predicate FirstOccurrence(s: seq<Row>, i: int)
    requires 0 <= i < |s|
  {
    !Truthy(s[i].id) || forall j :: 0 <= j < i ==> !PyEq(s[j].id, s[i].id)
  }

  /** The loop's test on the last row is exactly "first occurrence". */
  lemma LastFirstOccurrence(s: seq<Row>)
    requires s != []
    ensures FirstOccurrence(s, |s| - 1) <==>
            !(Truthy(s[|s| - 1].id) && EqKey(s[|s| - 1].id) in SeenIds(s[..|s| - 1]))
  {
    var p, m := s[..|s| - 1], s[|s| - 1];
    SeenIdsIff(p, EqKey(m.id));
    if !FirstOccurrence(s, |s| - 1) {
      var j :| 0 <= j < |s| - 1 && PyEq(s[j].id, m.id);
      PyEqTruthy(s[j].id, m.id);
      assert p[j] == s[j];
    }
    if Truthy(m.id) && EqKey(m.id) in SeenIds(p) {
      var j :| 0 <= j < |p| && Truthy(p[j].id) && EqKey(p[j].id) == EqKey(m.id);
      assert s[j] == p[j];
    }
  }

  /** The merged list is the subsequence of the input made of exactly the
      rows that are first occurrences (or have a falsy id): `idx` gives,
      in increasing order, the input position of each kept row. */
  lemma {:induction false} DeduplicatedIndices(s: seq<Row>) returns (idx: seq<int>)
    ensures |idx| == |Deduplicated(s)|
    ensures forall k :: 0 <= k < |idx| ==>
              0 <= idx[k] < |s| && Deduplicated(s)[k] == s[idx[k]] && FirstOccurrence(s, idx[k])
    ensures forall k, l :: 0 <= k < l < |idx| ==> idx[k] < idx[l]
    ensures forall i :: 0 <= i < |s| && FirstOccurrence(s, i) ==> i in idx
  {
    if s == [] {
      return [];
    }
    var n := |s|;
    var p := s[..n - 1];
    var pidx := DeduplicatedIndices(p);
    forall i | 0 <= i < n - 1
      ensures FirstOccurrence(s, i) == FirstOccurrence(p, i)
    {
      assert forall j :: 0 <= j <= i ==> s[j] == p[j];
    }
    LastFirstOccurrence(s);
    if FirstOccurrence(s, n - 1) {
      idx := pidx + [n - 1];
    } else {
      idx := pidx;
    }
  }

  /** No two rows of `s` share a truthy id. */
  ghost predicate UniqueIds(s: seq<Row>) {
    forall k, l :: 0 <= k < l < |s| && Truthy(s[k].id) ==> !PyEq(s[k].id, s[l].id)
  }

  /** Every truthy id occurs at most once after de-duplication. */
  lemma DeduplicatedUniqueIds(s: seq<Row>)
    ensures UniqueIds(Deduplicated(s))
  {
    var idx := DeduplicatedIndices(s);
    var r := Deduplicated(s);
    forall k, l | 0 <= k < l < |r| && Truthy(r[k].id)
      ensures !PyEq(r[k].id, r[l].id)
    {
      assert FirstOccurrence(s, idx[l]) && idx[k] < idx[l];
      if PyEq(r[k].id, r[l].id) {
        PyEqTruthy(r[k].id, r[l].id);
      }
    }
  }

  /** Rows without a truthy id are all kept, duplicates included. */
  lemma {:induction false} DeduplicatedKeepsIdless(s: seq<Row>, m: Row)
    requires !Truthy(m.id)
    ensures multiset(Deduplicated(s))[m] == multiset(s)[m]
  {
    if s != [] {
      var p := s[..|s| - 1];
      DeduplicatedKeepsIdless(p, m);
      assert s == p + [s[|s| - 1]];
    }
  }

  /** No truthy id is lost: the merged list has the same ids as its input. */
  lemma {:induction false} DeduplicatedKeepsIds(s: seq<Row>)
    ensures SeenIds(Deduplicated(s)) == SeenIds(s)
  {
    if s != [] {
      var p := s[..|s| - 1];
      DeduplicatedKeepsIds(p);
      var d := Deduplicated(p);
      var m := s[|s| - 1];
      if !(Truthy(m.id) && EqKey(m.id) in SeenIds(p)) {
        assert (d + [m])[..|d + [m]| - 1] == d;
      }
    }
  }

  // ---------------------------------------------------------------------
  // Stable sort by timestamp

  ghost predicate SortedByTimestamp(s: seq<Row>) {
    forall i, j :: 0 <= i < j < |s| ==> TimestampKey(s[i]) <= TimestampKey(s[j])
  }

  /** Inserts `x` after every row whose key is not greater than its own. */
  function InsertByTimestamp(x: Row, s: seq<Row>): seq<Row> {
    if s == [] then [x]
    else if TimestampKey(x) < TimestampKey(s[0]) then [x] + s
    else [s[0]] + InsertByTimestamp(x, s[1..])
  }

  /** `list.sort(key=lambda x: x.get('timestamp', 0))`, as a left-to-right
      insertion sort: the reference for Python's stable sort. */
  function SortByTimestamp(s: seq<Row>): seq<Row> {
    if s == [] then [] else InsertByTimestamp(s[|s| - 1], SortByTimestamp(s[..|s| - 1]))
  }

  /** The rows of `s` whose key is `t`, in order. */
  function WithTimestamp(s: seq<Row>, t: int): seq<Row> {
    if s == [] then [] else (if TimestampKey(s[0]) == t then [s[0]] else []) + WithTimestamp(s[1..], t)
  }

  lemma {:induction false} WithTimestampAppend(a: seq<Row>, b: seq<Row>, t: int)
    ensures WithTimestamp(a + b, t) == WithTimestamp(a, t) + WithTimestamp(b, t)
  {
    if a == [] {
      assert a + b == b;
    } else {
      var head := if TimestampKey(a[0]) == t then [a[0]] else [];
      assert (a + b)[0] == a[0];
      assert (a + b)[1..] == a[1..] + b;
      calc {
        WithTimestamp(a + b, t);
        head + WithTimestamp(a[1..] + b, t);
        { WithTimestampAppend(a[1..], b, t); }
        head + (WithTimestamp(a[1..], t) + WithTimestamp(b, t));
        (head + WithTimestamp(a[1..], t)) + WithTimestamp(b, t);
      }
    }
  }

  lemma {:induction false} WithTimestampAbove(s: seq<Row>, t: int)
    requires forall i :: 0 <= i < |s| ==> t < TimestampKey(s[i])
    ensures WithTimestamp(s, t) == []
  {
    if s != [] {
      WithTimestampAbove(s[1..], t);
    }
  }

  /** `InsertByTimestamp` adds `x` to the multiset of rows. */
  lemma {:induction false} InsertMultiset(x: Row, s: seq<Row>)
    ensures multiset(InsertByTimestamp(x, s)) == multiset(s) + multiset{x}
  {
    if s != [] && TimestampKey(x) >= TimestampKey(s[0]) {
      InsertMultiset(x, s[1..]);
      assert s == [s[0]] + s[1..];
    }
  }

  /** A lower bound on every key survives insertion. */
  lemma {:induction false} InsertLowerBound(x: Row, s: seq<Row>, b: int)
    requires b <= TimestampKey(x)
    requires forall i :: 0 <= i < |s| ==> b <= TimestampKey(s[i])
    ensures forall i :: 0 <= i < |InsertByTimestamp(x, s)| ==> b <= TimestampKey(InsertByTimestamp(x, s)[i])
  {
    if s != [] && TimestampKey(x) >= TimestampKey(s[0]) {
      InsertLowerBound(x, s[1..], b);
      var r := InsertByTimestamp(x, s);
      assert r[1..] == InsertByTimestamp(x, s[1..]);
    }
  }

  lemma {:induction false} InsertSorted(x: Row, s: seq<Row>)
    requires SortedByTimestamp(s)
    ensures SortedByTimestamp(InsertByTimestamp(x, s))
  {
    if s != [] && TimestampKey(x) >= TimestampKey(s[0]) {
      var rest := InsertByTimestamp(x, s[1..]);
      InsertSorted(x, s[1..]);
      InsertLowerBound(x, s[1..], TimestampKey(s[0]));
      var r := [s[0]] + rest;
      forall i, j | 0 <= i < j < |r| ensures TimestampKey(r[i]) <= TimestampKey(r[j]) {
        assert r[j] == rest[j - 1];
        if i > 0 {
          assert r[i] == rest[i - 1];
        }
      }
    }
  }

  lemma {:induction false} InsertStable(x: Row, s: seq<Row>, t: int)
    requires SortedByTimestamp(s)
    ensures WithTimestamp(InsertByTimestamp(x, s), t) ==
            WithTimestamp(s, t) + (if TimestampKey(x) == t then [x] else [])
  {
    var tail := if TimestampKey(x) == t then [x] else [];
    if s == [] {
      assert WithTimestamp([x], t) == tail + WithTimestamp([x][1..], t);
    } else if TimestampKey(x) < TimestampKey(s[0]) {
      var r := [x] + s;
      assert r[0] == x && r[1..] == s;
      assert WithTimestamp(r, t) == tail + WithTimestamp(s, t);
      if TimestampKey(x) == t {
        WithTimestampAbove(s, t);
      }
    } else {
      var rest := InsertByTimestamp(x, s[1..]);
      var r := [s[0]] + rest;
      var head := if TimestampKey(s[0]) == t then [s[0]] else [];
      assert r[0] == s[0] && r[1..] == rest;
      calc {
        WithTimestamp(r, t);
        head + WithTimestamp(rest, t);
        { InsertStable(x, s[1..], t); }
        head + (WithTimestamp(s[1..], t) + tail);
        (head + WithTimestamp(s[1..], t)) + tail;
        WithTimestamp(s, t) + tail;
      }
    }
  }

  /** The sort is ordered by timestamp, is a permutation, and is stable:
      rows with equal timestamps keep their relative order. */
  lemma SortByTimestampCorrect(s: seq<Row>)
    ensures SortedByTimestamp(SortByTimestamp(s))
    ensures multiset(SortByTimestamp(s)) == multiset(s)
    ensures forall t :: WithTimestamp(SortByTimestamp(s), t) == WithTimestamp(s, t)
  {
    SortIsSorted(s);
    SortIsPermutation(s);
    forall t ensures WithTimestamp(SortByTimestamp(s), t) == WithTimestamp(s, t) {
      SortIsStable(s, t);
    }
  }

  lemma {:induction false} SortIsSorted(s: seq<Row>)
    ensures SortedByTimestamp(SortByTimestamp(s))
  {
    if s != [] {
      SortIsSorted(s[..|s| - 1]);
      InsertSorted(s[|s| - 1], SortByTimestamp(s[..|s| - 1]));
    }
  }

  lemma {:induction false} SortIsPermutation(s: seq<Row>)
    ensures multiset(SortByTimestamp(s)) == multiset(s)
  {
    if s != [] {
      var p, x := s[..|s| - 1], s[|s| - 1];
      SortIsPermutation(p);
      InsertMultiset(x, SortByTimestamp(p));
      assert s == p + [x];
    }
  }

  lemma {:induction false} SortIsStable(s: seq<Row>, t: int)
    ensures WithTimestamp(SortByTimestamp(s), t) == WithTimestamp(s, t)
  {
    if s != [] {
      var p, x := s[..|s| - 1], s[|s| - 1];
      SortIsStable(p, t);
      SortIsSorted(p);
      InsertStable(x, SortByTimestamp(p), t);
      WithTimestampAppend(p, [x], t);
      assert s == p + [x];
      assert WithTimestamp([x], t) == (if TimestampKey(x) == t then [x] else []) + WithTimestamp([x][1..], t);
    }
  }

  /** A row whose id clashes with none of `x` and `s` clashes with nothing
      in their insertion. */
  lemma {:induction false} InsertAvoids(x: Row, s: seq<Row>, y: Row)
    requires !(Truthy(y.id) && PyEq(y.id, x.id))
    requires forall i :: 0 <= i < |s| ==> !(Truthy(y.id) && PyEq(y.id, s[i].id))
    ensures forall i :: 0 <= i < |InsertByTimestamp(x, s)| ==>
              !(Truthy(y.id) && PyEq(y.id, InsertByTimestamp(x, s)[i].id))
  {
    if s != [] && TimestampKey(x) >= TimestampKey(s[0]) {
      InsertAvoids(x, s[1..], y);
      var r := InsertByTimestamp(x, s);
      assert r[1..] == InsertByTimestamp(x, s[1..]);
    }
  }

  lemma {:induction false} InsertKeepsUniqueIds(x: Row, s: seq<Row>)
    requires UniqueIds(s)
    requires forall i :: 0 <= i < |s| ==> !(Truthy(x.id) && PyEq(s[i].id, x.id))
    ensures UniqueIds(InsertByTimestamp(x, s))
  {
    if s != [] && TimestampKey(x) >= TimestampKey(s[0]) {
      var rest := InsertByTimestamp(x, s[1..]);
      InsertKeepsUniqueIds(x, s[1..]);
      if PyEq(s[0].id, x.id) {
        PyEqTruthy(s[0].id, x.id);
      }
      InsertAvoids(x, s[1..], s[0]);
      var r := [s[0]] + rest;
      forall k, l | 0 <= k < l < |r| && Truthy(r[k].id)
        ensures !PyEq(r[k].id, r[l].id)
      {
        assert r[l] == rest[l - 1];
        if k > 0 {
          assert r[k] == rest[k - 1];
        }
      }
    } else if s != [] {
      var r := [x] + s;
      forall k, l | 0 <= k < l < |r| && Truthy(r[k].id)
        ensures !PyEq(r[k].id, r[l].id)
      {
        assert r[l] == s[l - 1];
        if k > 0 {
          assert r[k] == s[k - 1];
        }
      }
    }
  }

  /** Sorting keeps ids unique. */
  lemma {:induction false} SortKeepsUniqueIds(s: seq<Row>)
    requires UniqueIds(s)
    ensures UniqueIds(SortByTimestamp(s))
  {
    if s != [] {
      var p, x := s[..|s| - 1], s[|s| - 1];
      assert UniqueIds(p) by {
        forall k, l | 0 <= k < l < |p| && Truthy(p[k].id) ensures !PyEq(p[k].id, p[l].id) {
          assert p[k] == s[k] && p[l] == s[l];
        }
      }
      SortKeepsUniqueIds(p);
      SortByTimestampCorrect(p);
      var q := SortByTimestamp(p);
      forall i | 0 <= i < |q| ensures !(Truthy(x.id) && PyEq(q[i].id, x.id)) {
        assert q[i] in multiset(p);
        var j :| 0 <= j < |p| && p[j] == q[i];
        assert s[j] == q[i];
        if Truthy(x.id) && PyEq(q[i].id, x.id) {
          PyEqTruthy(q[i].id, x.id);
        }
      }
      InsertKeepsUniqueIds(x, q);
    }
  }

  // ---------------------------------------------------------------------
  // The merge

  /** The list returned for an individual contact. */
  function Merged(received: seq<Row>, sent: seq<Row>): seq<Row> {
    SortByTimestamp(Deduplicated(received + sent))
  }

  /** What the merged list promises: ordered by timestamp; every truthy id
      at most once; the same rows as the de-duplicated concatenation, with
      rows of equal timestamp in received-then-sent order; every id-less
      row of either list kept as often as it occurs. */
  lemma MergedProperties(received: seq<Row>, sent: seq<Row>)
    ensures SortedByTimestamp(Merged(received, sent))
    ensures UniqueIds(Merged(received, sent))
    ensures multiset(Merged(received, sent)) == multiset(Deduplicated(received + sent))
    ensures forall t :: WithTimestamp(Merged(received, sent), t) == WithTimestamp(Deduplicated(received + sent), t)
    ensures forall m: Row :: !Truthy(m.id) ==> multiset(Merged(received, sent))[m] == multiset(received + sent)[m]
    ensures SeenIds(Deduplicated(received + sent)) == SeenIds(received + sent)
  {
    var d := Deduplicated(received + sent);
    SortByTimestampCorrect(d);
    DeduplicatedUniqueIds(received + sent);
    SortKeepsUniqueIds(d);
    DeduplicatedKeepsIds(received + sent);
    forall m: Row | !Truthy(m.id) ensures multiset(Merged(received, sent))[m] == multiset(received + sent)[m] {
      DeduplicatedKeepsIdless(received + sent, m);
    }
  }

  /** When nothing was sent (or the sent query failed), the result is the
      received list de-duplicated and sorted. */
  lemma MergedWithoutSent(received: seq<Row>)
    ensures Merged(received, []) == SortByTimestamp(Deduplicated(received))
  {
    assert received + [] == received;
  }

  /** The loop of the messages endpoint: a pass that keeps a `seen_ids` set,
      then the sort. */
  method MergeMessages(received: seq<Row>, sent: seq<Row>) returns (all: seq<Row>)
    ensures all == Merged(received, sent)
    ensures SortedByTimestamp(all) && UniqueIds(all)
    ensures multiset(all) == multiset(Deduplicated(received + sent))
  {
    var combined := received + sent;
    var seenIds: set<PyValue> := {};
    var allMessages: seq<Row> := [];
    for i := 0 to |combined|
      invariant seenIds == SeenIds(combined[..i])
      invariant allMessages == Deduplicated(combined[..i])
    {
      var msg := combined[i];
      var msgId := msg.id;
      assert combined[..i + 1][..i] == combined[..i];
      if Truthy(msgId) && EqKey(msgId) !in seenIds {
        seenIds := seenIds + {EqKey(msgId)};
        allMessages := allMessages + [msg];
      } else if !Truthy(msgId) {
        allMessages := allMessages + [msg];
      }
    }
    assert combined[..|combined|] == combined;
    all := SortByTimestamp(allMessages);
    MergedProperties(received, sent);
  }
}
