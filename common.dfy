/**
 * Shared vocabulary of the model: optional values, the verification status of a
 * record, order-preserving filtering, the stable sort that ECMAScript's
 * Array.prototype.sort performs, and the string helpers the views use
 * (ASCII lower-casing, substring search, decimal rendering of integers).
 */
module Common {

  datatype Option<T> = None | Some(value: T)

  /** One validation issue of a zod schema: the field it is attached to and its message. */
  datatype Issue = Issue(path: string, message: string)

  /**
   * A zod `string().min(n, message)` check of the field at `path`: no issue
   * when the value has at least n characters, otherwise exactly one. Nothing
   * is trimmed first.
   */
  function MinLength(path: string, value: string, n: nat, message: string): (r: seq<Issue>)
    ensures r == [] <==> |value| >= n
    ensures r != [] ==> r == [Issue(path, message)]
  {
    if |value| >= n then [] else [Issue(path, message)]
  }

  /** The paths of a list of issues. */
  function Paths(issues: seq<Issue>): (r: seq<string>)
    ensures |r| == |issues| && forall i :: 0 <= i < |r| ==> r[i] == issues[i].path
  {
    seq(|issues|, i requires 0 <= i < |issues| => issues[i].path)
  }

  /** The three statuses a record of the client-side store can be in. */
  datatype Status = Verified | Rejected | Pending

  // ---------------------------------------------------------------------------
  // Order-preserving filtering (Array.prototype.filter)
  // ---------------------------------------------------------------------------

  /** The elements of `s` that satisfy `p`, in their original order. */
  function Filter<T>(p: T -> bool, s: seq<T>): (r: seq<T>)
    ensures |r| <= |s|
    ensures forall i :: 0 <= i < |r| ==> r[i] in s && p(r[i])
    ensures forall i :: 0 <= i < |s| && p(s[i]) ==> s[i] in r
  {
    if s == [] then [] else (if p(s[0]) then [s[0]] else []) + Filter(p, s[1..])
  }

  /** `Filter` keeps every occurrence of a kept value and none of a dropped one. */
  lemma {:induction false} FilterMultiplicity<T>(p: T -> bool, s: seq<T>)
    ensures forall x :: multiset(Filter(p, s))[x] == if p(x) then multiset(s)[x] else 0
  {
    if s != [] {
      FilterMultiplicity(p, s[1..]);
      assert s == [s[0]] + s[1..];
    }
  }

  /** `a` is an order-preserving sublist of `b`. */
  predicate IsSubsequence<T(==)>(a: seq<T>, b: seq<T>)
  {
    if a == [] then true
    else if b == [] then false
    else (a[0] == b[0] && IsSubsequence(a[1..], b[1..])) || IsSubsequence(a, b[1..])
  }

  /** What `Filter` keeps is an order-preserving sublist of its input. */
  lemma {:induction false} FilterIsSubsequence<T>(p: T -> bool, s: seq<T>)
    ensures IsSubsequence(Filter(p, s), s)
  {
    if s != [] {
      FilterIsSubsequence(p, s[1..]);
      if p(s[0]) {
        assert Filter(p, s) == [s[0]] + Filter(p, s[1..]);
        assert (Filter(p, s))[1..] == Filter(p, s[1..]);
      } else {
        assert Filter(p, s) == Filter(p, s[1..]);
      }
    }
  }

  /** A predicate that holds everywhere on `s` keeps all of `s`. */
  lemma {:induction false} FilterKeepsAll<T>(p: T -> bool, s: seq<T>)
    requires forall i :: 0 <= i < |s| ==> p(s[i])
    ensures Filter(p, s) == s
  {
    if s != [] {
      FilterKeepsAll(p, s[1..]);
    }
  }

  /** Predicates that agree on every element of `s` keep the same elements. */
  lemma {:induction false} FilterAgreeing<T>(p: T -> bool, q: T -> bool, s: seq<T>)
    requires forall i :: 0 <= i < |s| ==> p(s[i]) == q(s[i])
    ensures Filter(p, s) == Filter(q, s)
  {
    if s != [] {
      FilterAgreeing(p, q, s[1..]);
    }
  }

  /** Filtering distributes over concatenation. */
  lemma {:induction false} FilterConcat<T>(p: T -> bool, a: seq<T>, b: seq<T>)
    ensures Filter(p, a + b) == Filter(p, a) + Filter(p, b)
  {
    if a == [] {
      assert a + b == b;
    } else {
      assert (a + b)[0] == a[0];
      assert (a + b)[1..] == a[1..] + b;
      FilterConcat(p, a[1..], b);
    }
  }

  /**
   * Counting under two exclusive predicates that both imply a third: the
   * two counts together never exceed the third count.
   */
  lemma {:induction false} FilterCountDisjoint<T>(p: T -> bool, q: T -> bool, r: T -> bool, s: seq<T>)
    requires forall i :: 0 <= i < |s| ==> (q(s[i]) ==> p(s[i])) && (r(s[i]) ==> p(s[i])) && !(q(s[i]) && r(s[i]))
    ensures |Filter(q, s)| + |Filter(r, s)| <= |Filter(p, s)|
  {
    if s != [] {
      FilterCountDisjoint(p, q, r, s[1..]);
    }
  }

  /** A stronger predicate keeps no more elements. */
  lemma {:induction false} FilterCountMonotone<T>(p: T -> bool, q: T -> bool, s: seq<T>)
    requires forall i :: 0 <= i < |s| ==> (q(s[i]) ==> p(s[i]))
    ensures |Filter(q, s)| <= |Filter(p, s)|
  {
    if s != [] {
      FilterCountMonotone(p, q, s[1..]);
    }
  }

  // ---------------------------------------------------------------------------
  // Stable sort by an integer key (Array.prototype.sort with the comparator
  // (a, b) => key(a) - key(b); stable since ECMAScript 2019, section 23.1.3.30
  // of ECMAScript 2023)
  // ---------------------------------------------------------------------------

  /** `s` is in ascending order of `key`. */
  ghost predicate SortedBy<T>(s: seq<T>, key: T -> int)
  {
    forall i, j :: 0 <= i < j < |s| ==> key(s[i]) <= key(s[j])
  }

  /** Two sequences with the same multiset hold the same elements. */
  lemma SameElements<T>(a: seq<T>, b: seq<T>)
    requires multiset(a) == multiset(b)
    ensures forall i :: 0 <= i < |a| ==> a[i] in b
    ensures forall i :: 0 <= i < |b| ==> b[i] in a
  {
    forall i | 0 <= i < |a| ensures a[i] in b {
      assert a[i] in multiset(a);
    }
    forall i | 0 <= i < |b| ensures b[i] in a {
      assert b[i] in multiset(b);
    }
  }

  /** The predicate "has key k", named so that two uses of it are the same function. */
  function HasKey<T>(key: T -> int, k: int): T -> bool
  {
    x => key(x) == k
  }

  /** Inserts `x` before the first element whose key is not below `x`'s. */
  function Insert<T>(x: T, s: seq<T>, key: T -> int): seq<T>
  {
    if s == [] then [x]
    else if key(x) <= key(s[0]) then [x] + s
    else [s[0]] + Insert(x, s[1..], key)
  }

  /** Insertion sort: a stable sort of `s` in ascending order of `key`. */
  function SortByKey<T>(s: seq<T>, key: T -> int): seq<T>
  {
    if s == [] then [] else Insert(s[0], SortByKey(s[1..], key), key)
  }

  /** Every key in `s` is at least `m`. */
  ghost predicate KeysAtLeast<T>(s: seq<T>, key: T -> int, m: int)
  {
    forall i :: 0 <= i < |s| ==> m <= key(s[i])
  }

  lemma {:induction false} InsertKeysAtLeast<T>(x: T, s: seq<T>, key: T -> int, m: int)
    requires KeysAtLeast(s, key, m) && m <= key(x)
    ensures KeysAtLeast(Insert(x, s, key), key, m)
  {
    if s != [] && key(x) > key(s[0]) {
      InsertKeysAtLeast(x, s[1..], key, m);
    }
  }

  lemma {:induction false} InsertSorted<T>(x: T, s: seq<T>, key: T -> int)
    requires SortedBy(s, key)
    ensures SortedBy(Insert(x, s, key), key)
  {
    if s == [] {
    } else if key(x) <= key(s[0]) {
      var r := [x] + s;
      forall i, j | 0 <= i < j < |r| ensures key(r[i]) <= key(r[j]) {
        if i == 0 {
          assert r[j] == s[j - 1];
          assert key(s[0]) <= key(s[j - 1]);
        } else {
          assert r[i] == s[i - 1] && r[j] == s[j - 1];
        }
      }
    } else {
      var t := Insert(x, s[1..], key);
      InsertSorted(x, s[1..], key);
      assert KeysAtLeast(s[1..], key, key(s[0])) by {
        forall i | 0 <= i < |s[1..]| ensures key(s[0]) <= key(s[1..][i]) {
          assert s[1..][i] == s[i + 1];
        }
      }
      InsertKeysAtLeast(x, s[1..], key, key(s[0]));
      var r := [s[0]] + t;
      forall i, j | 0 <= i < j < |r| ensures key(r[i]) <= key(r[j]) {
        assert r[j] == t[j - 1];
        if i > 0 {
          assert r[i] == t[i - 1];
        }
      }
    }
  }

  lemma {:induction false} InsertPermutes<T>(x: T, s: seq<T>, key: T -> int)
    ensures multiset(Insert(x, s, key)) == multiset(s) + multiset{x}
  {
    if s != [] && key(x) > key(s[0]) {
      InsertPermutes(x, s[1..], key);
      assert s == [s[0]] + s[1..];
    }
  }

  lemma {:induction false} InsertKeepsKeyClass<T>(x: T, s: seq<T>, key: T -> int, k: int)
    ensures Filter(HasKey(key, k), Insert(x, s, key)) ==
            (if key(x) == k then [x] else []) + Filter(HasKey(key, k), s)
  {
    var p := HasKey(key, k);
    if s == [] {
    } else if key(x) <= key(s[0]) {
      assert ([x] + s)[1..] == s;
    } else {
      InsertKeepsKeyClass(x, s[1..], key, k);
      var rest := Insert(x, s[1..], key);
      FilterCons(p, s[0], rest);
      FilterCons(p, s[0], s[1..]);
      assert s == [s[0]] + s[1..];
      if key(x) == k {
        assert !p(s[0]);
        assert Filter(p, s) == Filter(p, s[1..]);
        assert Filter(p, Insert(x, s, key)) == Filter(p, rest);
      } else {
        assert Filter(p, rest) == Filter(p, s[1..]);
      }
    }
  }

  /** Filtering a sequence with a known first element. */
  lemma FilterCons<T>(p: T -> bool, a: T, rest: seq<T>)
    ensures Filter(p, [a] + rest) == (if p(a) then [a] else []) + Filter(p, rest)
  {
    assert ([a] + rest)[1..] == rest;
  }

  /**
   * `SortByKey` is a stable sort: ascending in the key, a permutation of its
   * input, and for every key value the elements carrying it keep their
   * relative order.
   */
  lemma {:induction false} SortByKeyCorrect<T>(s: seq<T>, key: T -> int)
    ensures SortedBy(SortByKey(s, key), key)
    ensures multiset(SortByKey(s, key)) == multiset(s)
    ensures forall k :: Filter(HasKey(key, k), SortByKey(s, key)) == Filter(HasKey(key, k), s)
  {
    if s != [] {
      SortByKeyCorrect(s[1..], key);
      InsertSorted(s[0], SortByKey(s[1..], key), key);
      InsertPermutes(s[0], SortByKey(s[1..], key), key);
      assert s == [s[0]] + s[1..];
      forall k ensures Filter(HasKey(key, k), SortByKey(s, key)) == Filter(HasKey(key, k), s) {
        InsertKeepsKeyClass(s[0], SortByKey(s[1..], key), key, k);
      }
    }
  }

  // ---------------------------------------------------------------------------
  // Strings
  // ---------------------------------------------------------------------------

  /** Lower-cases the ASCII letters A-Z and leaves every other character alone. */
  function LowerChar(c: char): (r: char)
    ensures 'A' <= c <= 'Z' ==> 'a' <= r <= 'z'
    ensures !('A' <= c <= 'Z') ==> r == c
  {
    if 'A' <= c <= 'Z' then (c as int + 32) as char else c
  }

  function ToLower(s: string): (r: string)
    ensures |r| == |s|
    ensures forall i :: 0 <= i < |s| ==> r[i] == LowerChar(s[i])
  {
    seq(|s|, i requires 0 <= i < |s| => LowerChar(s[i]))
  }

  /** String.prototype.includes: `needle` occurs somewhere in `hay`. */
  predicate Contains(hay: string, needle: string)
  {
    needle <= hay || (hay != [] && Contains(hay[1..], needle))
  }

  /** `needle` is the slice of `hay` that starts at offset `i`. */
  ghost predicate OccursAt(hay: string, needle: string, i: int)
  {
    0 <= i && i + |needle| <= |hay| && hay[i..i + |needle|] == needle
  }

  /** `Contains` holds exactly when `needle` is the slice of `hay` at some offset. */
  lemma {:induction false} ContainsIffOccurs(hay: string, needle: string)
    ensures Contains(hay, needle) <==> exists i :: OccursAt(hay, needle, i)
  {
    if needle <= hay {
      assert OccursAt(hay, needle, 0);
    } else if hay == [] {
    } else {
      ContainsIffOccurs(hay[1..], needle);
      if exists i :: OccursAt(hay, needle, i) {
        OccursInTail(hay, needle);
      }
      if Contains(hay[1..], needle) {
        var i :| OccursAt(hay[1..], needle, i);
        TailOccurrence(hay, needle, i);
      }
    }
  }

  /** An occurrence that is not at the start is an occurrence in the tail. */
  lemma OccursInTail(hay: string, needle: string)
    requires hay != [] && !(needle <= hay) && exists i :: OccursAt(hay, needle, i)
    ensures exists i :: OccursAt(hay[1..], needle, i)
  {
    var i :| OccursAt(hay, needle, i);
    assert OccursAt(hay, needle, 0) ==> needle <= hay by {
      assert hay[0..|needle|] == hay[..|needle|];
    }
    SliceOfTail(hay, i - 1, i - 1 + |needle|);
    assert OccursAt(hay[1..], needle, i - 1);
  }

  /** An occurrence in the tail is an occurrence one position later in the whole. */
  lemma TailOccurrence(hay: string, needle: string, i: int)
    requires hay != [] && OccursAt(hay[1..], needle, i)
    ensures OccursAt(hay, needle, i + 1)
  {
    SliceOfTail(hay, i, i + |needle|);
  }

  /** A slice of the tail is the slice of the whole one position later. */
  lemma SliceOfTail(s: string, i: int, j: int)
    requires s != [] && 0 <= i <= j <= |s| - 1
    ensures s[1..][i..j] == s[i + 1..j + 1]
  {
  }

  /** The empty string occurs in every string. */
  lemma EmptyIsContained(hay: string)
    ensures Contains(hay, "")
  {
  }

  // ---------------------------------------------------------------------------
  // Decimal rendering of integers (`${n}` in a template literal, str(n) in Python)
  // ---------------------------------------------------------------------------

  function DigitChar(d: int): (c: char)
    requires 0 <= d < 10
    ensures '0' <= c <= '9'
  {
    ('0' as int + d) as char
  }

  function NatToString(n: nat): (s: string)
    ensures |s| >= 1
    ensures forall i :: 0 <= i < |s| ==> '0' <= s[i] <= '9'
  {
    if n < 10 then [DigitChar(n)] else NatToString(n / 10) + [DigitChar(n % 10)]
  }

  function IntToString(i: int): (s: string)
  {
    if i < 0 then "-" + NatToString(-i) else NatToString(i)
  }

  /** The value of a string of decimal digits. */
  function ParseDecimal(s: string): nat
    requires forall i :: 0 <= i < |s| ==> '0' <= s[i] <= '9'
  {
    if s == [] then 0 else ParseDecimal(s[..|s| - 1]) * 10 + (s[|s| - 1] as int - '0' as int)
  }

  /** Reading back a rendered natural number gives the number. */
  lemma {:induction false} ParseRendered(n: nat)
    ensures ParseDecimal(NatToString(n)) == n
  {
    var s := NatToString(n);
    if n >= 10 {
      ParseRendered(n / 10);
      assert s[..|s| - 1] == NatToString(n / 10);
    }
  }

  /** Distinct numbers render as distinct strings. */
  lemma RenderingInjective(m: nat, n: nat)
    requires m != n
    ensures NatToString(m) != NatToString(n)
  {
    ParseRendered(m);
    ParseRendered(n);
  }

  /** Distinct numbers give distinct strings behind a common prefix. */
  lemma PrefixedRenderingInjective(prefix: string, m: nat, n: nat)
    requires m != n
    ensures prefix + NatToString(m) != prefix + NatToString(n)
  {
    RenderingInjective(m, n);
    assert (prefix + NatToString(m))[|prefix|..] == NatToString(m);
    assert (prefix + NatToString(n))[|prefix|..] == NatToString(n);
  }
}
