/** Retention: which backup files to delete when more than `max` exist. Both
    the local purge (class-wp-backup.php) and the remote purge
    (class-dropbox-facade.php) collect candidate names, asort them and
    delete `count - max` of them. */
module Retention {
  import opened Common

  // ------------------------------------------------------------ string order

  /** Byte-wise string order, the order asort puts file names in. */
  predicate LexLe(a: string, b: string)
  {
    a == [] || (b != [] && (a[0] < b[0] || (a[0] == b[0] && LexLe(a[1..], b[1..]))))
  }

  lemma {:induction false} LexLeTotal(a: string, b: string)
    ensures LexLe(a, b) || LexLe(b, a)
  {
    if a != [] && b != [] && a[0] == b[0] {
      LexLeTotal(a[1..], b[1..]);
    }
  }

  lemma {:induction false} LexLeTrans(a: string, b: string, c: string)
    requires LexLe(a, b) && LexLe(b, c)
    ensures LexLe(a, c)
  {
    if a != [] && a[0] == b[0] && b[0] == c[0] {
      LexLeTrans(a[1..], b[1..], c[1..]);
    }
  }

  lemma {:induction false} LexLeAntisym(a: string, b: string)
    requires LexLe(a, b) && LexLe(b, a)
    ensures a == b
  {
    if a != [] {
      LexLeAntisym(a[1..], b[1..]);
      assert a == [a[0]] + a[1..] && b == [b[0]] + b[1..];
    }
  }

  /** Two names that agree up to a character compare by that character. */
  lemma {:induction false} LexLeAtFirstDifference(p: string, c: char, s: string, d: char, t: string)
    requires c < d
    ensures LexLe(p + [c] + s, p + [d] + t)
    ensures !LexLe(p + [d] + t, p + [c] + s)
  {
    if p != [] {
      assert (p + [c] + s)[1..] == p[1..] + [c] + s;
      assert (p + [d] + t)[1..] == p[1..] + [d] + t;
      LexLeAtFirstDifference(p[1..], c, s, d, t);
    }
  }

  // ------------------------------------------------------------ asort

  /** Ascending order, stated between neighbours. */
  predicate Sorted(xs: seq<string>)
  {
    |xs| <= 1 || (LexLe(xs[0], xs[1]) && Sorted(xs[1..]))
  }

  /** In ascending order every name precedes every later one. */
  lemma {:induction false} SortedPairwise(xs: seq<string>)
    requires Sorted(xs)
    ensures forall i, j :: 0 <= i < j < |xs| ==> LexLe(xs[i], xs[j])
  {
    if |xs| > 1 {
      SortedPairwise(xs[1..]);
      forall i, j | 0 <= i < j < |xs| ensures LexLe(xs[i], xs[j]) {
        if i > 0 {
          assert xs[i] == xs[1..][i - 1] && xs[j] == xs[1..][j - 1];
        } else if j > 1 {
          assert xs[1] == xs[1..][0] && xs[j] == xs[1..][j - 1];
          LexLeTrans(xs[0], xs[1], xs[j]);
        }
      }
    }
  }

  function InsertAsc(xs: seq<string>, x: string): (r: seq<string>)
    ensures |r| == |xs| + 1
    ensures r[0] == x || (xs != [] && r[0] == xs[0])
  {
    if xs == [] || LexLe(x, xs[0]) then [x] + xs
    else [xs[0]] + InsertAsc(xs[1..], x)
  }

  /** The order asort leaves the names in (their values, ignoring keys). */
  function SortAsc(xs: seq<string>): (r: seq<string>)
    ensures |r| == |xs|
  {
    if xs == [] then [] else InsertAsc(SortAsc(xs[1..]), xs[0])
  }

  lemma {:induction false} InsertAscSorted(xs: seq<string>, x: string)
    requires Sorted(xs)
    ensures Sorted(InsertAsc(xs, x))
  {
    if !(xs == [] || LexLe(x, xs[0])) {
      LexLeTotal(x, xs[0]);
      InsertAscSorted(xs[1..], x);
    }
  }

  lemma {:induction false} InsertAscPermutes(xs: seq<string>, x: string)
    ensures multiset(InsertAsc(xs, x)) == multiset(xs) + multiset{x}
  {
    if !(xs == [] || LexLe(x, xs[0])) {
      InsertAscPermutes(xs[1..], x);
      assert xs == [xs[0]] + xs[1..];
    }
  }

  /** asort yields the same names in ascending order. */
  lemma {:induction false} SortAscSpec(xs: seq<string>)
    ensures Sorted(SortAsc(xs))
    ensures multiset(SortAsc(xs)) == multiset(xs)
  {
    if xs != [] {
      SortAscSpec(xs[1..]);
      InsertAscSorted(SortAsc(xs[1..]), xs[0]);
      InsertAscPermutes(SortAsc(xs[1..]), xs[0]);
      assert xs == [xs[0]] + xs[1..];
    }
  }

  // ------------------------------------------------------------ readdir

  /** Where `while ($file = readdir($dir))` stops: at the end of the listing
      or at the first name "0", which PHP reads as false. */
  function ReaddirStop(listing: seq<string>): (k: nat)
    ensures k <= |listing|
    ensures forall j :: 0 <= j < k ==> listing[j] != "0"
    ensures k < |listing| ==> listing[k] == "0"
  {
    if listing == [] || listing[0] == "0" then 0 else 1 + ReaddirStop(listing[1..])
  }

  predicate IsDot(name: string)
  {
    name == "." || name == ".."
  }

  /** The names kept from a listing, in order, skipping "." and "..". */
  function NonDot(names: seq<string>): (r: seq<string>)
    ensures |r| <= |names|
    ensures forall k :: 0 <= k < |r| ==> !IsDot(r[k]) && r[k] in names
  {
    if names == [] then []
    else
      var rest := NonDot(names[..|names| - 1]);
      if IsDot(names[|names| - 1]) then rest else rest + [names[|names| - 1]]
  }

  /** Every name other than "." and ".." is kept as often as it occurs. */
  lemma {:induction false} NonDotKeeps(names: seq<string>, x: string)
    requires !IsDot(x)
    ensures multiset(NonDot(names))[x] == multiset(names)[x]
  {
    if names != [] {
      var n := |names| - 1;
      assert names == names[..n] + [names[n]];
      NonDotKeeps(names[..n], x);
    }
  }

  /** The candidate backups of a local purge: the non-dot names that
      readdir returns before it stops. */
  function Listed(listing: seq<string>): seq<string>
  {
    NonDot(listing[..ReaddirStop(listing)])
  }

  // ------------------------------------------------------------ selection

  /** How many backups exceed the maximum: max(0, n - max). */
  function Excess(n: nat, max: int): (k: nat)
    requires max >= 0
    ensures k <= n
  {
    if n > max then n - max else 0
  }

  /** The deletions the purge is meant to issue: the `Excess` smallest names
      in asort order, i.e. the oldest date-stamped backups. */
  function OldestExcess(names: seq<string>, max: int): seq<string>
    requires max >= 0
  {
    SortAsc(names)[..Excess(|names|, max)]
  }

  /** The purge deletes exactly max(0, n - max) names, nothing when n <= max,
      only names from the listing, and every deleted name sorts before every
      kept one; `max` names survive when there were more. */
  lemma OldestExcessSpec(names: seq<string>, max: int)
    requires max >= 0
    ensures var del := OldestExcess(names, max);
      var kept := SortAsc(names)[|del|..];
      && |del| == (if |names| > max then |names| - max else 0)
      && (|names| <= max ==> del == [])
      && |kept| == (if |names| > max then max else |names|)
      && multiset(del) + multiset(kept) == multiset(names)
      && (forall i, j :: 0 <= i < |del| && 0 <= j < |kept| ==> LexLe(del[i], kept[j]))
  {
    var sorted := SortAsc(names);
    var k := Excess(|names|, max);
    SortAscSpec(names);
    assert sorted == sorted[..k] + sorted[k..];
    SplitOrdered(sorted, k);
  }

  /** Cutting a sorted sequence leaves every name of the front before every
      name of the back. */
  lemma SplitOrdered(sorted: seq<string>, k: int)
    requires Sorted(sorted) && 0 <= k <= |sorted|
    ensures forall i, j :: 0 <= i < k && 0 <= j < |sorted| - k ==> LexLe(sorted[..k][i], sorted[k..][j])
  {
    SortedPairwise(sorted);
    forall i, j | 0 <= i < k && 0 <= j < |sorted| - k
      ensures LexLe(sorted[..k][i], sorted[k..][j])
    {
      assert sorted[..k][i] == sorted[i] && sorted[k..][j] == sorted[k + j];
    }
  }

  /** The deletions as the source issues them: asort keeps each name's
      original key, so $backups[$i] for i < diff is the i-th name in listing
      (readdir or metadata) order, not the i-th smallest. */
  function ListingOrderExcess(names: seq<string>, max: int): seq<string>
    requires max >= 0
  {
    names[..Excess(|names|, max)]
  }

  /** When the listing returns a later name first, the source deletes that
      name while the oldest-first rule deletes the other one. */
  lemma ListingOrderDiffers(newer: string, older: string)
    requires !LexLe(newer, older)
    ensures ListingOrderExcess([newer, older], 1) == [newer]
    ensures OldestExcess([newer, older], 1) == [older]
  {
    LexLeTotal(newer, older);
    assert SortAsc([older]) == [older];
    assert [newer, older][1..] == [older];
  }

  /** A listing that returns the newer backup first makes the source delete
      the newer backup and keep the older one: here the March backup goes
      and the January one stays. */
  lemma ListingOrderDeletesNewest()
    ensures var march := "wordpress-backup-2011-0" + ['3'] + "-01.zip";
      var january := "wordpress-backup-2011-0" + ['1'] + "-01.zip";
      && ListingOrderExcess([march, january], 1) == [march]
      && OldestExcess([march, january], 1) == [january]
  {
    var p := "wordpress-backup-2011-0";
    LexLeAtFirstDifference(p, '1', "-01.zip", '3', "-01.zip");
    ListingOrderDiffers(p + ['3'] + "-01.zip", p + ['1'] + "-01.zip");
  }
}
