/** JavaScript's `String.prototype.split` on a one-character separator,
    `Array.prototype.slice` and `Array.prototype.join`, as the SHOUTcast v1
    parser uses them, with the round trips that relate them. */
module JsStrings {

  /** The number of occurrences of `c` in `s`. */
  function Count(s: string, c: char): nat
  {
    if s == [] then 0 else (if s[0] == c then 1 else 0) + Count(s[1..], c)
  }

  /** The field list `c` starts, in front of the fields `fields`. */
  function ConsFields(c: char, fields: seq<string>, sep: char): seq<string>
    requires fields != []
  {
    if c == sep then [""] + fields else [[c] + fields[0]] + fields[1..]
  }

  /** `s.split(sep)`: the maximal separator-free pieces of `s`, in order. The
      empty string gives one empty field. */
  function Split(s: string, sep: char): (fields: seq<string>)
    ensures |fields| == Count(s, sep) + 1
    ensures forall i :: 0 <= i < |fields| ==> sep !in fields[i]
  {
    if s == [] then [""] else ConsFields(s[0], Split(s[1..], sep), sep)
  }

  /** `fields.join(sep)`: the empty list joins to the empty string. */
  function Join(fields: seq<string>, sep: char): (s: string)
    // The joined text starts with the first field, and the separator
    // follows it when there is a second.
    ensures fields != [] ==> fields[0] <= s
    ensures |fields| >= 2 ==> |fields[0]| < |s| && s[|fields[0]|] == sep
  {
    if fields == [] then ""
    else if |fields| == 1 then fields[0]
    else fields[0] + [sep] + Join(fields[1..], sep)
  }

  /** `fields.slice(k)`: the fields from index `k` on, empty when there are fewer. */
  function Slice(fields: seq<string>, k: nat): seq<string>
  {
    if k <= |fields| then fields[k..] else []
  }

  /** The index of the `n`-th occurrence (counting from 1) of `c` in `s`. */
  function NthIndex(s: string, c: char, n: nat): (i: nat)
    requires 1 <= n <= Count(s, c)
    ensures i < |s| && s[i] == c
    ensures Count(s[..i], c) == n - 1
  {
    if s[0] == c then
      if n == 1 then 0
      else
        var j := NthIndex(s[1..], c, n - 1);
        assert s[..j + 1][1..] == s[1..][..j];
        1 + j
    else
      var j := NthIndex(s[1..], c, n);
      assert s[..j + 1][1..] == s[1..][..j];
      1 + j
  }

  /** Joining the fields of a split gives back the string. */
  lemma {:induction false} JoinSplit(s: string, sep: char)
    ensures Join(Split(s, sep), sep) == s
  {
    if s != [] {
      JoinSplit(s[1..], sep);
      var rest := Split(s[1..], sep);
      if s[0] == sep {
        assert Split(s, sep) == [""] + rest;
        assert ([""] + rest)[1..] == rest;
      } else {
        var fields := [[s[0]] + rest[0]] + rest[1..];
        assert Split(s, sep) == fields;
        if |rest| > 1 {
          assert fields[1..] == rest[1..];
          assert Join(fields, sep) == [s[0]] + (rest[0] + [sep] + Join(rest[1..], sep));
        }
      }
    }
  }

  /** A string without the separator splits into itself alone. */
  lemma {:induction false} SplitWithoutSeparator(s: string, sep: char)
    requires sep !in s
    ensures Split(s, sep) == [s]
  {
    if s != [] {
      assert sep !in s[1..];
      SplitWithoutSeparator(s[1..], sep);
      assert [s[0]] + s[1..] == s;
    }
  }

  /** Splitting a string with a known first character. */
  lemma SplitCons(c: char, t: string, sep: char)
    ensures Split([c] + t, sep) == ConsFields(c, Split(t, sep), sep)
  {
    assert ([c] + t)[1..] == t;
  }

  /** Starting a field list and appending fields commute. */
  lemma ConsFieldsAppend(c: char, a: seq<string>, b: seq<string>, sep: char)
    requires a != []
    ensures ConsFields(c, a + b, sep) == ConsFields(c, a, sep) + b
  {
    if c != sep {
      assert (a + b)[1..] == a[1..] + b;
    }
  }

  /** A character put in front of a split string joins its first field, or
      starts a new empty field when it is the separator. */
  lemma PrependSplit(c: char, u: string, t: string, b: seq<string>, sep: char)
    requires Split(t, sep) == Split(u, sep) + b
    ensures Split([c] + t, sep) == Split([c] + u, sep) + b
  {
    SplitCons(c, t, sep);
    SplitCons(c, u, sep);
    ConsFieldsAppend(c, Split(u, sep), b, sep);
  }

  /** Splitting at a separator at index `i` splits both sides independently. */
  lemma {:induction false} SplitAt(s: string, sep: char, i: nat)
    requires i < |s| && s[i] == sep
    ensures Split(s, sep) == Split(s[..i], sep) + Split(s[i + 1..], sep)
  {
    if i > 0 {
      var t := s[1..];
      SplitAt(t, sep, i - 1);
      assert t[i..] == s[i + 1..];
      PrependSplit(s[0], t[..i - 1], t, Split(s[i + 1..], sep), sep);
      assert [s[0]] + t == s && [s[0]] + t[..i - 1] == s[..i];
    }
  }

  /** Splitting a join of separator-free fields gives back the fields. */
  lemma {:induction false} SplitJoin(fields: seq<string>, sep: char)
    requires |fields| >= 1
    requires forall i :: 0 <= i < |fields| ==> sep !in fields[i]
    ensures Split(Join(fields, sep), sep) == fields
  {
    if |fields| == 1 {
      SplitWithoutSeparator(fields[0], sep);
    } else {
      var s := Join(fields, sep);
      var head := fields[0];
      SplitJoin(fields[1..], sep);
      SplitWithoutSeparator(head, sep);
      assert s[..|head|] == head;
      assert s[|head| + 1..] == Join(fields[1..], sep);
      SplitAt(s, sep, |head|);
    }
  }

  /** The text after the `n`-th occurrence of `c`, or "" when `c` occurs fewer times. */
  function After(s: string, c: char, n: nat): string
    requires n >= 1
  {
    if n <= Count(s, c) then s[NthIndex(s, c, n) + 1..] else ""
  }

  /** The fields from index `k` on, rejoined, are exactly the text after the
      `k`-th separator (and the empty string when there are not that many). */
  lemma SliceJoinIsSuffix(s: string, sep: char, k: nat)
    requires k >= 1
    ensures Join(Slice(Split(s, sep), k), sep) == After(s, sep, k)
  {
    if k <= Count(s, sep) {
      var i := NthIndex(s, sep, k);
      SplitAt(s, sep, i);
      JoinSplit(s[i + 1..], sep);
      assert Split(s, sep)[k..] == Split(s[i + 1..], sep);
    }
  }
}
