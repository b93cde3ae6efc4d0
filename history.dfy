/** The backup history: a PHP array from timestamp to (status, message),
    kept in krsort order (most recent first). The array is modelled as the
    sequence of its key/value pairs in iteration order, so that array_pop,
    assignment to a key and krsort act on it as they do in PHP. */
module History {
  import opened Common

  /** The value stored under a timestamp: array( $status, $msg ). */
  datatype Record = Record(status: Status, msg: Option<string>)

  /** One key/value pair of the history array. */
  datatype Entry = Entry(time: int, rec: Record)

  /** $history[$t], or None when the key is absent. */
  function Lookup(h: seq<Entry>, t: int): Option<Record>
  {
    if h == [] then None
    else if h[0].time == t then Some(h[0].rec)
    else Lookup(h[1..], t)
  }

  predicate HasKey(h: seq<Entry>, t: int)
  {
    Lookup(h, t).Some?
  }

  /** PHP array keys are unique. */
  predicate DistinctKeys(h: seq<Entry>)
  {
    h == [] || (!HasKey(h[1..], h[0].time) && DistinctKeys(h[1..]))
  }

  /** krsort order: each key is more recent than the next one. */
  predicate Descending(h: seq<Entry>)
  {
    |h| <= 1 || (h[0].time > h[1].time && Descending(h[1..]))
  }

  /** In krsort order every key is more recent than every later key. */
  lemma {:induction false} DescendingPairwise(h: seq<Entry>)
    requires Descending(h)
    ensures forall i, j :: 0 <= i < j < |h| ==> h[i].time > h[j].time
  {
    if |h| > 1 {
      DescendingPairwise(h[1..]);
      assert forall j :: 1 <= j < |h| ==> h[j] == h[1..][j - 1];
    }
  }

  /** The first key of a krsort-ordered array is larger than every other. */
  lemma {:induction false} DescendingHead(h: seq<Entry>, t: int)
    requires Descending(h) && h != []
    requires HasKey(h[1..], t)
    ensures t < h[0].time
  {
    var tail := h[1..];
    if tail[0].time != t {
      DescendingHead(tail, t);
    }
  }

  lemma {:induction false} DescendingDistinct(h: seq<Entry>)
    requires Descending(h)
    ensures DistinctKeys(h)
  {
    if h != [] {
      if HasKey(h[1..], h[0].time) {
        DescendingHead(h, h[0].time);
      }
      DescendingDistinct(h[1..]);
    }
  }

  // ------------------------------------------------------------ array_pop

  /** array_pop: drop the last pair; an empty array is left empty. */
  function Pop(h: seq<Entry>): seq<Entry>
  {
    if h == [] then h else h[..|h| - 1]
  }

  /** `n` successive array_pop calls. */
  function PopN(h: seq<Entry>, n: nat): seq<Entry>
  {
    if n == 0 then h else PopN(Pop(h), n - 1)
  }

  /** Popping `n` times removes the last min(n, |h|) pairs and keeps the
      rest in order. */
  lemma {:induction false} PopNPrefix(h: seq<Entry>, n: nat)
    ensures PopN(h, n) == h[..if n <= |h| then |h| - n else 0]
  {
    if n > 0 {
      PopNPrefix(Pop(h), n - 1);
      if h != [] {
        assert h[..|h| - 1][..if n - 1 <= |h| - 1 then |h| - n else 0]
            == h[..if n <= |h| then |h| - n else 0];
      }
    }
  }

  /** One more array_pop after `n` of them is `n + 1` of them. */
  lemma PopNMore(h: seq<Entry>, n: nat)
    ensures Pop(PopN(h, n)) == PopN(h, n + 1)
  {
    PopNPrefix(h, n);
    PopNPrefix(h, n + 1);
  }

  /** Dropping pairs from the end keeps krsort order. */
  lemma {:induction false} DescendingPrefix(h: seq<Entry>, n: nat)
    requires Descending(h) && n <= |h|
    ensures Descending(h[..n])
  {
    if n > 1 {
      assert h[..n][1..] == h[1..][..n - 1];
      DescendingPrefix(h[1..], n - 1);
    }
  }

  // ------------------------------------------------------------ $h[$t] = $v

  /** Assignment to a key: an existing key keeps its position and takes the
      new value; a new key is appended at the end. */
  function Put(h: seq<Entry>, t: int, rec: Record): seq<Entry>
  {
    if h == [] then [Entry(t, rec)]
    else if h[0].time == t then [Entry(t, rec)] + h[1..]
    else [h[0]] + Put(h[1..], t, rec)
  }

  /** After the assignment the key maps to the new record and every other
      key maps to what it did before. */
  lemma {:induction false} PutLookup(h: seq<Entry>, t: int, rec: Record, u: int)
    ensures Lookup(Put(h, t, rec), u) == if u == t then Some(rec) else Lookup(h, u)
  {
    if h != [] && h[0].time != t {
      PutLookup(h[1..], t, rec, u);
    }
  }

  /** A present key is overwritten in place; a new key is appended. */
  lemma {:induction false} PutShape(h: seq<Entry>, t: int, rec: Record)
    ensures HasKey(h, t) ==> |Put(h, t, rec)| == |h|
    ensures !HasKey(h, t) ==> Put(h, t, rec) == h + [Entry(t, rec)]
  {
    if h != [] && h[0].time != t {
      PutShape(h[1..], t, rec);
      assert [h[0]] + (h[1..] + [Entry(t, rec)]) == h + [Entry(t, rec)];
    }
  }

  /** The assignment keeps the keys unique. */
  lemma {:induction false} PutDistinct(h: seq<Entry>, t: int, rec: Record)
    requires DistinctKeys(h)
    ensures DistinctKeys(Put(h, t, rec))
  {
    if h != [] && h[0].time != t {
      PutDistinct(h[1..], t, rec);
      PutLookup(h[1..], t, rec, h[0].time);
      assert Put(h, t, rec)[1..] == Put(h[1..], t, rec);
    }
  }

  // ------------------------------------------------------------ krsort

  /** Place one pair into a key-descending sequence. */
  function InsertDesc(h: seq<Entry>, e: Entry): (r: seq<Entry>)
    ensures |r| == |h| + 1
    ensures r[0] == e || (h != [] && r[0] == h[0])
  {
    if h == [] || e.time > h[0].time then [e] + h
    else [h[0]] + InsertDesc(h[1..], e)
  }

  /** krsort: order the pairs by key, most recent first. */
  function Krsort(h: seq<Entry>): (r: seq<Entry>)
    ensures |r| == |h|
  {
    if h == [] then [] else InsertDesc(Krsort(h[1..]), h[0])
  }

  lemma {:induction false} InsertDescLookup(h: seq<Entry>, e: Entry, u: int)
    requires !HasKey(h, e.time)
    ensures Lookup(InsertDesc(h, e), u) == if u == e.time then Some(e.rec) else Lookup(h, u)
  {
    if !(h == [] || e.time > h[0].time) {
      InsertDescLookup(h[1..], e, u);
    }
  }

  lemma {:induction false} InsertDescOrdered(h: seq<Entry>, e: Entry)
    requires Descending(h) && !HasKey(h, e.time)
    ensures Descending(InsertDesc(h, e))
  {
    if !(h == [] || e.time > h[0].time) {
      InsertDescOrdered(h[1..], e);
    }
  }

  lemma {:induction false} InsertDescPermutes(h: seq<Entry>, e: Entry)
    ensures multiset(InsertDesc(h, e)) == multiset(h) + multiset{e}
  {
    if !(h == [] || e.time > h[0].time) {
      InsertDescPermutes(h[1..], e);
      assert h == [h[0]] + h[1..];
    }
  }

  /** krsort leaves every key's value as it was and orders the keys. */
  lemma {:induction false} KrsortSpec(h: seq<Entry>)
    requires DistinctKeys(h)
    ensures Descending(Krsort(h))
    ensures forall u :: Lookup(Krsort(h), u) == Lookup(h, u)
  {
    if h != [] {
      var rest := Krsort(h[1..]);
      KrsortSpec(h[1..]);
      assert !HasKey(rest, h[0].time) by {
        assert Lookup(rest, h[0].time) == Lookup(h[1..], h[0].time);
      }
      InsertDescOrdered(rest, h[0]);
      forall u ensures Lookup(Krsort(h), u) == Lookup(h, u) {
        InsertDescLookup(rest, h[0], u);
      }
    }
  }

  /** krsort only reorders: the pairs are the same multiset. */
  lemma {:induction false} KrsortPermutes(h: seq<Entry>)
    ensures multiset(Krsort(h)) == multiset(h)
  {
    if h != [] {
      KrsortPermutes(h[1..]);
      InsertDescPermutes(Krsort(h[1..]), h[0]);
      assert h == [h[0]] + h[1..];
    }
  }

  // ------------------------------------------------------------ set_history

  /** The pops set_history performs before inserting: `batch` pairs when the
      array already holds at least count * batch of them. */
  function Evict(h: seq<Entry>, count: int, batch: nat): seq<Entry>
  {
    if |h| >= count * batch then PopN(h, batch) else h
  }

  /** The history after set_history($status, $msg) at time `now`: evict,
      store under the current timestamp, krsort. */
  function AfterSetHistory(h: seq<Entry>, count: int, batch: nat, now: int, rec: Record): seq<Entry>
  {
    Krsort(Put(Evict(h, count, batch), now, rec))
  }

  /** What one set_history call does to a well-formed history: the result is
      krsort-ordered, the new record sits under the current timestamp (a pair
      written in the same second is overwritten), every other key keeps the
      value it had after eviction, and eviction removed the `batch` oldest
      pairs exactly when the cap was reached. */
  lemma SetHistoryEffect(h: seq<Entry>, count: int, batch: nat, now: int, rec: Record)
    requires Descending(h)
    ensures var kept := Evict(h, count, batch);
      var r := AfterSetHistory(h, count, batch, now, rec);
      && Descending(r)
      && Lookup(r, now) == Some(rec)
      && (forall u :: u != now ==> Lookup(r, u) == Lookup(kept, u))
      && |r| == |kept| + (if HasKey(kept, now) then 0 else 1)
      && (|h| >= count * batch ==> kept == h[..if batch <= |h| then |h| - batch else 0])
      && (|h| < count * batch ==> kept == h)
      && (forall i, j :: 0 <= i < |kept| <= j < |h| ==> kept[i].time > h[j].time)
  {
    var kept := Evict(h, count, batch);
    PopNPrefix(h, batch);
    DescendingPairwise(h);
    DescendingDistinct(h);
    PrefixDistinct(h, |kept|);
    var p := Put(kept, now, rec);
    PutDistinct(kept, now, rec);
    PutShape(kept, now, rec);
    KrsortSpec(p);
    forall u ensures Lookup(p, u) == if u == now then Some(rec) else Lookup(kept, u) {
      PutLookup(kept, now, rec, u);
    }
  }

  /** Dropping pairs from the end keeps the keys unique. */
  lemma {:induction false} PrefixDistinct(h: seq<Entry>, n: nat)
    requires DistinctKeys(h) && n <= |h|
    ensures DistinctKeys(h[..n])
  {
    if n > 0 {
      PrefixDistinct(h[1..], n - 1);
      assert h[..n][1..] == h[1..][..n - 1];
      PrefixLookup(h[1..], n - 1, h[0].time);
    }
  }

  /** A key absent from an array is absent from each of its prefixes. */
  lemma {:induction false} PrefixLookup(h: seq<Entry>, n: nat, t: int)
    requires n <= |h| && !HasKey(h, t)
    ensures !HasKey(h[..n], t)
  {
    if n > 0 {
      assert h[..n][1..] == h[1..][..n - 1];
      PrefixLookup(h[1..], n - 1, t);
    }
  }

  /** With count >= 1 the history never grows past count * batch entries:
      once the cap is reached each insert is preceded by `batch` pops. */
  lemma {:induction false} SetHistoryBounded(h: seq<Entry>, count: int, batch: nat, now: int, rec: Record)
    requires Descending(h)
    requires count >= 1 && batch >= 1
    requires |h| <= count * batch
    ensures |AfterSetHistory(h, count, batch, now, rec)| <= count * batch
  {
    SetHistoryEffect(h, count, batch, now, rec);
  }

  /** Two statuses written in the same second leave one pair behind: the
      later status replaces the earlier one under that timestamp. */
  lemma SameSecondWritesCollapse(h: seq<Entry>, count: int, batch: nat, now: int, first: Record, second: Record)
    requires Descending(h)
    ensures var h1 := AfterSetHistory(h, count, batch, now, first);
      var h2 := AfterSetHistory(h1, count, batch, now, second);
      Lookup(h2, now) == Some(second) && Descending(h2)
  {
    SetHistoryEffect(h, count, batch, now, first);
    var h1 := AfterSetHistory(h, count, batch, now, first);
    SetHistoryEffect(h1, count, batch, now, second);
  }
}
