/** `/<body>(.*)<\/body>/im.exec(text)` as JavaScript evaluates it: the match
    starts at the leftmost `<body>` that has a `</body>` after it on the same
    line, and the greedy `(.*)` runs to the LAST such `</body>`. The `i` flag
    makes the tag letters match in either case; the `m` flag changes nothing,
    since the pattern has no anchors; `.` does not match a line terminator. */
module BodyRegex {
  import opened Stations

  const Open := "<body>"
  const Close := "</body>"

  /** The characters JavaScript's `.` refuses to match. */
  predicate IsLineTerminator(c: char)
  {
    c == '\n' || c == '\r' || c == '\U{2028}' || c == '\U{2029}'
  }

  /** Whether text character `c` matches pattern character `p` under the `i`
      flag without `u`: both are upper-cased and compared, except that a
      non-ASCII character never folds onto an ASCII one. For the characters of
      the two tags this is plain ASCII case folding. */
  predicate CharMatches(c: char, p: char)
  {
    c == p || ('a' <= p <= 'z' && c as int == p as int - 32)
  }

  /** The tag `lit` occurs in `s` at index `i`, up to case. */
  predicate LiteralAt(s: string, i: nat, lit: string)
  {
    i + |lit| <= |s| && forall k :: 0 <= k < |lit| ==> CharMatches(s[i + k], lit[k])
  }

  /** `s[i..j]` holds no line terminator, so `.*` can consume it. */
  predicate SameLine(s: string, i: nat, j: nat)
  {
    i <= j <= |s| && forall k :: i <= k < j ==> !IsLineTerminator(s[k])
  }

  /** The regex can match with `<body>` at `open` and `</body>` at `close`. */
  predicate BodyMatch(s: string, open: nat, close: nat)
  {
    open + |Open| <= close && LiteralAt(s, open, Open) && LiteralAt(s, close, Close)
    && SameLine(s, open + |Open|, close)
  }

  /** Where a match of the regex lies: the index of `<body>` and of `</body>`. */
  datatype Span = Span(open: nat, close: nat)

  /** The last `</body>` at or after `i` that `.*` can reach from `i`. */
  function LastClose(s: string, i: nat): (r: Option<nat>)
    requires i <= |s|
    ensures r.Some? ==> i <= r.value && LiteralAt(s, r.value, Close) && SameLine(s, i, r.value)
    ensures r.Some? ==> forall q: nat :: r.value < q && LiteralAt(s, q, Close) ==> !SameLine(s, i, q)
    ensures r.None? ==> forall q: nat :: i <= q && LiteralAt(s, q, Close) ==> !SameLine(s, i, q)
    decreases |s| - i
  {
    if i == |s| then None
    else
      var later := if IsLineTerminator(s[i]) then None else LastClose(s, i + 1);
      if later.Some? then later
      else if LiteralAt(s, i, Close) then Some(i)
      else None
  }

  /** The leftmost match starting at or after `p`, with its greedy extent. */
  function FirstMatch(s: string, p: nat): (r: Option<Span>)
    requires p <= |s|
    ensures r.Some? ==> p <= r.value.open && BodyMatch(s, r.value.open, r.value.close)
    ensures r.Some? ==> forall o: nat, c: nat :: p <= o && BodyMatch(s, o, c) ==>
      r.value.open < o || (r.value.open == o && c <= r.value.close)
    ensures r.None? ==> forall o: nat, c: nat :: p <= o ==> !BodyMatch(s, o, c)
    decreases |s| - p
  {
    if p == |s| then None
    else if LiteralAt(s, p, Open) && LastClose(s, p + |Open|).Some? then
      Some(Span(p, LastClose(s, p + |Open|).value))
    else FirstMatch(s, p + 1)
  }

  /** `exec`: no match at all, or the leftmost-longest one. */
  function Exec(s: string): (r: Option<Span>)
    ensures r.Some? ==> BodyMatch(s, r.value.open, r.value.close)
    ensures r.Some? ==> forall o: nat, c: nat :: BodyMatch(s, o, c) ==>
      r.value.open < o || (r.value.open == o && c <= r.value.close)
    ensures r.None? ==> forall o: nat, c: nat :: !BodyMatch(s, o, c)
  {
    FirstMatch(s, 0)
  }

  /** The capture group `(.*)` of a match. */
  function Captured(s: string, m: Span): string
    requires BodyMatch(s, m.open, m.close)
  {
    s[m.open + |Open|..m.close]
  }
}
