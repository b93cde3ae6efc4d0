/** Shared vocabulary of the backup plugin: option and result wrappers, the
    history status codes, and the small string operations of PHP's standard
    library that the engine's decisions depend on (strstr, str_replace,
    rtrim, implode, basename and the digit extraction of memory_limit). */
module Common {

  datatype Option<T> = None | Some(value: T)

  datatype Result<T, E> = Ok(value: T) | Err(error: E)

  /** The four backup statuses written to the history log. */
  datatype Status = Started | Success | Error | Uploading
  {
    /** The integer constant the source stores for the status. */
    function Code(): (c: int)
      ensures 0 <= c <= 3
      ensures c == 0 <==> this == Started
      ensures c == 1 <==> this == Success
      ensures c == 2 <==> this == Error
      ensures c == 3 <==> this == Uploading
    {
      match this
      case Started => 0
      case Success => 1
      case Error => 2
      case Uploading => 3
    }
  }

  /** One mebibyte, the unit memory_limit is multiplied by. */
  const MB: int := 1048576

  // ---------------------------------------------------------------- substrings

  /** `p` occurs in `s` at index `i`. */
  predicate OccursAt(s: string, p: string, i: int)
  {
    0 <= i && i + |p| <= |s| && s[i..i + |p|] == p
  }

  /** strstr($s, $p) is truthy: `p` occurs somewhere in `s`. */
  predicate Contains(s: string, p: string)
  {
    exists i :: 0 <= i <= |s| - |p| && OccursAt(s, p, i)
  }

  lemma ContainsPrefix(p: string, t: string)
    ensures Contains(p + t, p)
  {
    assert OccursAt(p + t, p, 0);
  }

  /** An occurrence survives putting text in front. */
  lemma ContainsShift(s: string, p: string, a: string)
    ensures Contains(s, p) ==> Contains(a + s, p)
  {
    if Contains(s, p) {
      var i :| 0 <= i <= |s| - |p| && OccursAt(s, p, i);
      var t := a + s;
      assert t[|a| + i..|a| + i + |p|] == s[i..i + |p|];
      assert OccursAt(t, p, |a| + i);
    }
  }

  /** A prefix one longer is the prefix and the next element; stated
      generically so that it is proved once, away from any element type's
      definitions. */
  lemma TakeSnoc<T>(s: seq<T>, k: int)
    requires 0 <= k < |s|
    ensures s[..k + 1] == s[..k] + [s[k]]
  {
  }

  lemma EmptyPrefix(s: string)
    ensures "" + s == s
  {
  }

  /** Regrouping three pieces of text. */
  lemma Assoc(a: string, b: string, c: string)
    ensures a + (b + c) == a + b + c
  {
  }

  /** Regrouping four pieces of text, stated once so that proofs about
      texts written piece by piece need not search for it. */
  lemma Regroup(a: string, b: string, c: string, d: string)
    ensures a + b + c + d == a + (b + (c + d))
  {
  }

  // ---------------------------------------------------------------- str_replace

  /** str_replace($pat, $rep, $s): every non-overlapping occurrence of `pat`,
      scanning left to right, is replaced by `rep`. */
  function ReplaceAll(s: string, pat: string, rep: string): string
    requires |pat| > 0
    decreases |s|
  {
    if |s| < |pat| then s
    else if s[..|pat|] == pat then rep + ReplaceAll(s[|pat|..], pat, rep)
    else [s[0]] + ReplaceAll(s[1..], pat, rep)
  }

  /** A string without the pattern is left as it is. */
  lemma {:induction false} ReplaceAllAbsent(s: string, pat: string, rep: string)
    requires |pat| > 0
    requires !Contains(s, pat)
    ensures ReplaceAll(s, pat, rep) == s
    decreases |s|
  {
    if |s| >= |pat| {
      assert !OccursAt(s, pat, 0);
      ContainsShift(s[1..], pat, [s[0]]);
      assert [s[0]] + s[1..] == s;
      ReplaceAllAbsent(s[1..], pat, rep);
    }
  }

  /** With a one-character pattern the replacement distributes over
      concatenation: no occurrence can straddle the seam. */
  lemma {:induction false} ReplaceCharAppend(a: string, b: string, c: char, rep: string)
    ensures ReplaceAll(a + b, [c], rep) == ReplaceAll(a, [c], rep) + ReplaceAll(b, [c], rep)
    decreases |a|
  {
    if a == [] {
      assert a + b == b;
    } else {
      assert (a + b)[1..] == a[1..] + b;
      assert (a + b)[..1] == a[..1];
      ReplaceCharAppend(a[1..], b, c, rep);
    }
  }

  /** A one-character string is replaced exactly when it is the pattern. */
  lemma ReplaceCharSingle(x: char, c: char, rep: string)
    ensures ReplaceAll([x], [c], rep) == if x == c then rep else [x]
  {
    assert [x][1..] == [];
    assert ReplaceAll([], [c], rep) == [];
  }

  // ---------------------------------------------------------------- rtrim

  /** rtrim($s, $chars): strip trailing characters that belong to `chars`. */
  function RTrim(s: string, chars: set<char>): (r: string)
    ensures |r| <= |s| && r == s[..|r|]
    ensures r == [] || r[|r| - 1] !in chars
    ensures forall k :: |r| <= k < |s| ==> s[k] in chars
  {
    if |s| > 0 && s[|s| - 1] in chars then RTrim(s[..|s| - 1], chars) else s
  }

  /** Trimming a string that ends in a kept character, followed by trimmable
      characters, removes exactly the trimmable tail. */
  lemma RTrimTail(a: string, tail: string, chars: set<char>)
    requires |a| > 0 && a[|a| - 1] !in chars
    requires forall k :: 0 <= k < |tail| ==> tail[k] in chars
    ensures RTrim(a + tail, chars) == a
  {
    var s := a + tail;
    var r := RTrim(s, chars);
    assert s[|a| - 1] == a[|a| - 1];
    assert |a| <= |r|;
    assert |r| <= |a| by {
      assert forall k :: |a| <= k < |s| ==> s[k] == tail[k - |a|];
    }
    assert r == s[..|a|] == a;
  }

  /** When the right-hand part survives trimming, only it is trimmed. */
  lemma {:induction false} RTrimAppend(a: string, b: string, chars: set<char>)
    requires RTrim(b, chars) != []
    ensures RTrim(a + b, chars) == a + RTrim(b, chars)
    decreases |b|
  {
    if |b| > 0 && b[|b| - 1] in chars {
      assert (a + b)[..|a + b| - 1] == a + b[..|b| - 1];
      RTrimAppend(a, b[..|b| - 1], chars);
    }
  }

  // ---------------------------------------------------------------- implode

  /** implode($sep, $xs). */
  function Join(xs: seq<string>, sep: string): string
  {
    if |xs| == 0 then ""
    else if |xs| == 1 then xs[0]
    else xs[0] + sep + Join(xs[1..], sep)
  }

  /** The concatenation of all pieces. */
  function Concat(xs: seq<string>): string
  {
    if xs == [] then "" else xs[0] + Concat(xs[1..])
  }

  lemma {:induction false} ConcatSnoc(xs: seq<string>, x: string)
    ensures Concat(xs + [x]) == Concat(xs) + x
  {
    if xs == [] {
      assert [] + [x] == [x];
    } else {
      assert (xs + [x])[1..] == xs[1..] + [x];
      ConcatSnoc(xs[1..], x);
    }
  }

  lemma {:induction false} JoinSnoc(xs: seq<string>, x: string, sep: string)
    requires xs != []
    ensures Join(xs + [x], sep) == Join(xs, sep) + sep + x
  {
    if |xs| == 1 {
      assert xs + [x] == [xs[0], x];
    } else {
      assert (xs + [x])[1..] == xs[1..] + [x];
      JoinSnoc(xs[1..], x, sep);
    }
  }

  /** Each piece followed by the separator, as a loop appending
      `piece . sep` builds it before rtrim. */
  function Suffixed(xs: seq<string>, sep: string): (r: seq<string>)
    ensures |r| == |xs|
  {
    if xs == [] then [] else [xs[0] + sep] + Suffixed(xs[1..], sep)
  }

  lemma {:induction false} SuffixedSnoc(xs: seq<string>, x: string, sep: string)
    ensures Suffixed(xs + [x], sep) == Suffixed(xs, sep) + [x + sep]
  {
    if xs != [] {
      assert (xs + [x])[1..] == xs[1..] + [x];
      SuffixedSnoc(xs[1..], x, sep);
    }
  }

  /** Appending the separator after every piece is the joined text plus one
      trailing separator. */
  lemma {:induction false} ConcatSuffixed(xs: seq<string>, sep: string)
    requires xs != []
    ensures Concat(Suffixed(xs, sep)) == Join(xs, sep) + sep
  {
    if |xs| > 1 {
      ConcatSuffixed(xs[1..], sep);
    }
  }

  /** The last character of a joined text is the last character of the last
      piece, when that piece is not empty. */
  lemma {:induction false} JoinLast(xs: seq<string>, sep: string)
    requires xs != [] && xs[|xs| - 1] != []
    ensures var j := Join(xs, sep); |j| > 0 && j[|j| - 1] == xs[|xs| - 1][|xs[|xs| - 1]| - 1]
  {
    if |xs| > 1 {
      JoinLast(xs[1..], sep);
    }
  }

  /** rtrim of the separator-suffixed pieces gives back the joined text when
      every piece ends in a character that is not trimmed and the separator
      consists of trimmed characters only. */
  lemma RTrimSuffixed(xs: seq<string>, sep: string, chars: set<char>)
    requires forall k :: 0 <= k < |sep| ==> sep[k] in chars
    requires forall i :: 0 <= i < |xs| ==> xs[i] != [] && xs[i][|xs[i]| - 1] !in chars
    ensures RTrim(Concat(Suffixed(xs, sep)), chars) == Join(xs, sep)
  {
    if xs != [] {
      ConcatSuffixed(xs, sep);
      JoinLast(xs, sep);
      RTrimTail(Join(xs, sep), sep, chars);
    }
  }

  // ---------------------------------------------------------------- paths

  /** The text after the last '/', as basename() gives it for a path that
      does not end in a slash. */
  function Basename(path: string): (r: string)
    ensures |r| <= |path| && r == path[|path| - |r|..]
    ensures '/' !in r
    ensures r == path || path[|path| - |r| - 1] == '/'
  {
    if path == [] then []
    else if path[|path| - 1] == '/' then []
    else Basename(path[..|path| - 1]) + [path[|path| - 1]]
  }

  /** Strip `prefix` from the front of `s` when it is there. */
  function StripPrefix(s: string, prefix: string): (r: string)
    ensures |prefix| <= |s| && s[..|prefix|] == prefix ==> prefix + r == s
    ensures !(|prefix| <= |s| && s[..|prefix|] == prefix) ==> r == s
  {
    if |prefix| <= |s| && s[..|prefix|] == prefix then s[|prefix|..] else s
  }

  // ---------------------------------------------------------------- numbers

  predicate IsDigit(c: char) { '0' <= c <= '9' }

  /** preg_replace('/\D/', '', $s): keep only the decimal digits. */
  function DigitsOnly(s: string): (r: string)
    ensures forall k :: 0 <= k < |r| ==> IsDigit(r[k])
    ensures |r| <= |s|
  {
    if s == [] then []
    else if IsDigit(s[0]) then [s[0]] + DigitsOnly(s[1..])
    else DigitsOnly(s[1..])
  }

  /** Every digit is kept as often as it occurs, and a text of digits alone
      is kept whole. */
  lemma {:induction false} DigitsOnlySpec(s: string, c: char)
    ensures IsDigit(c) ==> multiset(DigitsOnly(s))[c] == multiset(s)[c]
    ensures (forall k :: 0 <= k < |s| ==> IsDigit(s[k])) ==> DigitsOnly(s) == s
  {
    if s != [] {
      assert s == [s[0]] + s[1..];
      DigitsOnlySpec(s[1..], c);
    }
  }

  /** The digits of two texts one after the other are the digits of the
      first followed by those of the second: the digits keep their order. */
  lemma {:induction false} DigitsOnlyAppend(a: string, b: string)
    ensures DigitsOnly(a + b) == DigitsOnly(a) + DigitsOnly(b)
  {
    if a == [] {
      assert a + b == b;
    } else {
      assert (a + b)[0] == a[0];
      assert (a + b)[1..] == a[1..] + b;
      DigitsOnlyAppend(a[1..], b);
      if IsDigit(a[0]) {
        assert DigitsOnly(a) == [a[0]] + DigitsOnly(a[1..]);
      }
    }
  }

  /** The value of a string of decimal digits (the empty string reads as 0). */
  function DecimalValue(d: string): nat
    requires forall k :: 0 <= k < |d| ==> IsDigit(d[k])
  {
    if d == [] then 0
    else
      assert IsDigit(d[|d| - 1]);
      DecimalValue(d[..|d| - 1]) * 10 + (d[|d| - 1] as int - '0' as int)
  }

  /** The decimal digits of a natural number, as sprintf('%s') prints it. */
  function DecimalString(n: nat): (r: string)
    ensures |r| > 0
    ensures forall k :: 0 <= k < |r| ==> IsDigit(r[k])
    ensures DecimalValue(r) == n
    ensures |r| > 1 ==> r[0] != '0'
  {
    var last := [('0' as int + n % 10) as char];
    if n < 10 then
      assert DecimalValue(last) == DecimalValue([]) * 10 + n % 10;
      last
    else
      var r := DecimalString(n / 10) + last;
      assert r[..|r| - 1] == DecimalString(n / 10);
      r
  }
}
