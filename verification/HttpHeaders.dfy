/** The demo's header scanner over a block of memory `mem[start..end]`. */
module HttpHeaders {
  import opened Base
  import opened ByteSearch

  const CRLF: string := "\r\n"
  const BLANK_LINE: string := "\r\n\r\n"

  predicate LineBreak(mem: string, p: nat) {
    p + 2 <= |mem| && mem[p] == '\r' && mem[p + 1] == '\n'
  }

  lemma LineBreakMatches(mem: string, p: nat)
    ensures Matches(mem, p, CRLF) <==> LineBreak(mem, p)
  {
  }

  /** The first line break in `mem[lo..hi]`. */
  function FindBreak(mem: string, lo: nat, hi: nat): (r: Option<nat>)
    requires lo <= hi <= |mem|
    ensures r.Some? ==> lo <= r.value && r.value + 2 <= hi && LineBreak(mem, r.value)
    ensures forall q :: lo <= q < (if r.Some? then r.value else hi) && q + 2 <= hi ==> !LineBreak(mem, q)
  {
    var r := Find(mem, lo, hi, CRLF);
    assert forall q: nat :: Matches(mem, q, CRLF) <==> LineBreak(mem, q) by {
      forall q: nat ensures Matches(mem, q, CRLF) <==> LineBreak(mem, q) { LineBreakMatches(mem, q); }
    }
    r
  }

  lemma FindBreakIs(mem: string, lo: nat, hi: nat, p: nat)
    requires lo <= p && p + 2 <= hi <= |mem| && LineBreak(mem, p)
    requires forall q: nat :: lo <= q < p ==> !LineBreak(mem, q)
    ensures FindBreak(mem, lo, hi) == Some(p)
  {
  }

  function Lower(c: char): char {
    if 'A' <= c <= 'Z' then (c as int + 32) as char else c
  }

  /** `strncasecmp(a, b, |a|) == 0`: the comparison ends early where both strings end. */
  predicate SameName(a: string, b: string)
    requires |a| == |b|
  {
    a == [] || (Lower(a[0]) == Lower(b[0]) && (a[0] == '\0' || SameName(a[1..], b[1..])))
  }

  const UPPER_CASE: string := "ABCDEFGHIJKLMNOPQRSTUVWXYZ"
  const LOWER_CASE: string := "abcdefghijklmnopqrstuvwxyz"

  /** The same character, or the two cases of one letter. */
  predicate SameLetter(x: char, y: char) {
    x == y || exists k :: 0 <= k < 26 && TwoCases(x, y, k)
  }

  predicate TwoCases(x: char, y: char, k: nat)
    requires k < 26
  {
    (x == UPPER_CASE[k] && y == LOWER_CASE[k]) || (x == LOWER_CASE[k] && y == UPPER_CASE[k])
  }

  lemma LetterNumber(k: nat)
    requires k < 26
    ensures UPPER_CASE[k] as int == 65 + k && LOWER_CASE[k] as int == 97 + k
  {
  }

  /** Folding identifies exactly the two cases of each letter. */
  lemma FoldsLetters(x: char, y: char)
    ensures Lower(x) == Lower(y) <==> SameLetter(x, y)
  {
    if k :| 0 <= k < 26 && TwoCases(x, y, k) {
      LetterNumber(k);
    }
    if 'A' <= x <= 'Z' {
      LetterNumber(x as int - 65);
      assert Lower(x) == y ==> TwoCases(x, y, x as int - 65);
    }
    if 'A' <= y <= 'Z' {
      LetterNumber(y as int - 65);
      assert Lower(y) == x ==> TwoCases(x, y, y as int - 65);
    }
  }

  /** The comparison succeeds iff the names agree up to case at every position up to the first
      NUL of `a`. */
  lemma {:induction false} SameNameIff(a: string, b: string)
    requires |a| == |b|
    ensures SameName(a, b) <==> forall i :: 0 <= i < |a| && '\0' !in a[..i] ==> SameLetter(a[i], b[i])
  {
    if a == [] {
    } else {
      var c, d := a[1..], b[1..];
      SameNameIff(c, d);
      FoldsLetters(a[0], b[0]);
      if SameName(a, b) {
        forall i | 0 <= i < |a| && '\0' !in a[..i] ensures SameLetter(a[i], b[i]) {
          if i > 0 {
            NulAfterFirst(a, i);
            assert SameLetter(c[i - 1], d[i - 1]);
          }
        }
      } else if SameLetter(a[0], b[0]) {
        var i :| 0 <= i < |c| && '\0' !in c[..i] && !SameLetter(c[i], d[i]);
        NulAfterFirst(a, i + 1);
        assert !SameLetter(a[i + 1], b[i + 1]);
      } else {
        assert '\0' !in a[..0];
      }
    }
  }

  lemma NulAfterFirst(a: string, i: nat)
    requires 0 < i <= |a|
    ensures '\0' in a[..i] <==> a[0] == '\0' || '\0' in a[1..][..i - 1]
  {
    assert a[..i] == [a[0]] + a[1..][..i - 1];
  }

  method Strncasecmp(a: string, b: string) returns (equal: bool)
    requires |a| == |b|
    ensures equal == SameName(a, b)
  {
    var i := 0;
    while i < |a|
      invariant 0 <= i <= |a| && SameName(a, b) == SameName(a[i..], b[i..])
    {
      assert a[i..][1..] == a[i + 1..] && b[i..][1..] == b[i + 1..];
      if Lower(a[i]) != Lower(b[i]) {
        return false;
      }
      if a[i] == '\0' {
        return true;
      }
      i := i + 1;
    }
    return true;
  }

  /** A line that starts at `s`, after a CRLF inside the block, with the name and a colon, and
      with at least one more byte. */
  predicate HeaderAt(mem: string, start: nat, end: nat, name: string, s: nat)
    requires end <= |mem|
  {
    && start + 2 <= s && s + |name| + 2 <= end
    && LineBreak(mem, s - 2)
    && SameName(name, mem[s..s + |name|]) && mem[s + |name|] == ':'
  }

  /** A value span: position and length. */
  datatype Span = Span(at: nat, n: nat)

  /** The value that starts at `at` runs to the next CRLF, or to the end of the block. */
  function ValueAt(mem: string, at: nat, end: nat): (v: Span)
    requires at <= end <= |mem|
  {
    Span(at, match FindBreak(mem, at, end) case Some(p) => p - at case None => end - at)
  }

  /** The first header line of that name starts at `s`. */
  ghost predicate FirstAt(mem: string, start: nat, end: nat, name: string, s: nat)
    requires end <= |mem|
    ensures FirstAt(mem, start, end, name, s) ==> s + |name| + 1 <= end
  {
    HeaderAt(mem, start, end, name, s) && forall q: nat :: q < s ==> !HeaderAt(mem, start, end, name, q)
  }

  lemma OneFirst(mem: string, start: nat, end: nat, name: string, s: nat, t: nat)
    requires end <= |mem| && FirstAt(mem, start, end, name, s) && FirstAt(mem, start, end, name, t)
    ensures s == t
  {
  }

  /** The value of the first header line of that name. */
  ghost predicate FirstHeader(mem: string, start: nat, end: nat, name: string, r: Option<Span>)
    requires start <= end <= |mem|
  {
    if r.None? then forall s: nat :: !HeaderAt(mem, start, end, name, s)
    else exists s: nat :: FirstAt(mem, start, end, name, s) && r.value == ValueAt(mem, s + |name| + 1, end)
  }

  /** Where the first header line starts determines its value. */
  lemma FirstDetermines(mem: string, start: nat, end: nat, name: string, s: nat, v: Span)
    requires start <= end <= |mem| && FirstAt(mem, start, end, name, s)
    requires FirstHeader(mem, start, end, name, Some(v))
    ensures v == ValueAt(mem, s + |name| + 1, end)
  {
    var t: nat :| FirstAt(mem, start, end, name, t) && v == ValueAt(mem, t + |name| + 1, end);
    OneFirst(mem, start, end, name, s, t);
  }

  lemma FirstHeaderIsUnique(mem: string, start: nat, end: nat, name: string, r: Option<Span>, q: Option<Span>)
    requires start <= end <= |mem|
    requires FirstHeader(mem, start, end, name, r) && FirstHeader(mem, start, end, name, q)
    ensures r == q
  {
    if s: nat :| FirstAt(mem, start, end, name, s) {
      assert HeaderAt(mem, start, end, name, s);
      FirstDetermines(mem, start, end, name, s, r.value);
      FirstDetermines(mem, start, end, name, s, q.value);
    }
  }

  // ---- Searching for line breaks near the end of the block ----

  predicate EndsInBreak(mem: string, end: nat) {
    2 <= end <= |mem| && LineBreak(mem, end - 2)
  }

  /** What the caller owes: a byte of slack after the block, unless it ends in a CRLF. */
  predicate Roomy(mem: string, end: nat) {
    end < |mem| || EndsInBreak(mem, end)
  }

  /** The block's end does not cut a CRLF in two (unless another carriage return precedes). */
  predicate Sealed(mem: string, end: nat) {
    end >= |mem| || !(end >= 2 && mem[end - 2] != '\r' && LineBreak(mem, end - 1))
  }

  /** The search finds the first line break. Failing that, it reports the break that the end of
      an unsealed block cuts, one byte before the end. */
  lemma BreakSearched(mem: string, lo: nat, end: nat)
    requires lo <= end <= |mem| && Roomy(mem, end)
    ensures Search(mem, lo, end, CRLF)
         == if FindBreak(mem, lo, end).Some? then FindBreak(mem, lo, end)
            else if !Sealed(mem, end) && lo + 2 <= end then Some(end - 1) else None
  {
    if end >= 1 {
      LineBreakMatches(mem, end - 1);
    }
  }

  /** Every search in the block is exact iff the block is sealed. */
  lemma SealedIff(mem: string, end: nat)
    requires end <= |mem| && Roomy(mem, end)
    ensures Sealed(mem, end)
       <==> forall lo: nat :: lo <= end ==> Search(mem, lo, end, CRLF) == FindBreak(mem, lo, end)
  {
    forall lo: nat | lo <= end ensures Sealed(mem, end) ==> Search(mem, lo, end, CRLF) == FindBreak(mem, lo, end) {
      BreakSearched(mem, lo, end);
    }
    if !Sealed(mem, end) {
      BreakSearched(mem, end - 2, end);
      assert !LineBreak(mem, end - 2);
    }
  }

  method NextBreak(mem: string, lo: nat, end: nat) returns (r: Option<nat>)
    requires lo <= end <= |mem| && Roomy(mem, end)
    ensures r == Search(mem, lo, end, CRLF)
  {
    assert end == |mem| && lo + 2 <= end ==> FindBreak(mem, lo, end).Some?;
    if end < |mem| {
      SlackSuffices(mem, lo, end, CRLF);
    }
    r := Memmem(mem, lo, end, CRLF, '\r');
  }

  // ---- The scanner ----

  /** The scanner's outcome. When it leaves the block, the remaining length has wrapped around. */
  datatype Scan = NotFound | Found(value: Span) | LeavesBlock {
    function ToOption(): Option<Span> {
      if Found? then Some(value) else None
    }
  }

  /** The value that starts at `at`, as far as the search says. */
  function SearchedValue(mem: string, at: nat, end: nat): Span
    requires at <= end <= |mem|
  {
    Span(at, match Search(mem, at, end, CRLF) case Some(p) => p - at case None => end - at)
  }

  predicate LineStart(mem: string, start: nat, s: nat) {
    s == start || (start + 2 <= s && LineBreak(mem, s - 2))
  }

  /** The scanner runs out of an unsealed block when no line qualifies and the last line is
      long enough to be looked at. */
  ghost predicate Escapes(mem: string, start: nat, end: nat, name: string)
    requires start <= end <= |mem|
  {
    && !Sealed(mem, end)
    && (forall s: nat :: !HeaderAt(mem, start, end, name, s))
    && LongLastLine(mem, start, end, |name| + 3)
  }

  /** The block's last line has more than `n` bytes. */
  ghost predicate LongLastLine(mem: string, start: nat, end: nat, n: nat)
    requires end <= |mem|
  {
    exists s: nat :: LineStart(mem, start, s) && s + n < end && FindBreak(mem, s, end).None?
  }

  lemma ShortRest(mem: string, start: nat, end: nat, n: nat, current: nat)
    requires start <= current <= end <= |mem| && LineStart(mem, start, current) && end - current <= n
    ensures !LongLastLine(mem, start, end, n)
  {
    forall s: nat | LineStart(mem, start, s) && s + n < end ensures FindBreak(mem, s, end).Some? {
      assert s <= current - 2 && LineBreak(mem, current - 2);
    }
  }

  /** `current` is where a line starts (or the block) and nothing up to it qualifies. */
  ghost predicate Scanned(mem: string, start: nat, end: nat, name: string, current: nat)
    requires end <= |mem|
  {
    && start <= current <= end && LineStart(mem, start, current)
    && forall s: nat :: s <= current ==> !HeaderAt(mem, start, end, name, s)
  }

  /** The next line that can qualify follows the next line break. */
  lemma NextLine(mem: string, start: nat, end: nat, name: string, current: nat)
    requires end <= |mem| && Scanned(mem, start, end, name, current)
    ensures forall s: nat :: HeaderAt(mem, start, end, name, s) ==>
      && current + 2 <= s
      && FindBreak(mem, current, end).Some? && FindBreak(mem, current, end).value + 2 <= s
  {
  }

  method QualifiesAt(mem: string, start: nat, end: nat, name: string, current: nat) returns (yes: bool)
    requires end <= |mem| && start + 2 <= current && LineBreak(mem, current - 2) && current + |name| + 2 <= end
    ensures yes == HeaderAt(mem, start, end, name, current)
  {
    var same := Strncasecmp(name, mem[current..current + |name|]);
    yes := same && mem[current + |name|] == ':';
  }

  /** The first header line starts at `s`, and `v` is its value, as far as the search says. */
  ghost predicate FoundFrom(mem: string, start: nat, end: nat, name: string, s: nat, v: Span)
    requires end <= |mem|
  {
    FirstAt(mem, start, end, name, s) && v == SearchedValue(mem, s + |name| + 1, end)
  }

  /** The scanner's answer: the first line that qualifies, and otherwise whether it escapes. */
  ghost predicate Scans(mem: string, start: nat, end: nat, name: string, r: Scan)
    requires start <= end <= |mem|
  {
    match r
    case Found(v) => exists s: nat :: FoundFrom(mem, start, end, name, s, v)
    case LeavesBlock => Escapes(mem, start, end, name)
    case NotFound => !Escapes(mem, start, end, name) && forall s: nat :: !HeaderAt(mem, start, end, name, s)
  }

  /** Move to the next line, unless there is none with room for the name, a colon and a byte. */
  method NextCandidateLine(mem: string, start: nat, end: nat, name: string, current: nat)
    returns (done: Option<Scan>, next: nat)
    requires end <= |mem| && Roomy(mem, end) && Scanned(mem, start, end, name, current)
    requires end - current > |name| + 3
    ensures done.Some? ==> !done.value.Found? && Scans(mem, start, end, name, done.value)
    ensures done.None? ==>
      && current < next && start + 2 <= next && LineBreak(mem, next - 2) && next + |name| + 2 <= end
      && forall s: nat :: s < next ==> !HeaderAt(mem, start, end, name, s)
  {
    NextLine(mem, start, end, name, current);
    BreakSearched(mem, current, end);
    next := current;
    var found := NextBreak(mem, current, end);
    if found.None? {
      return Some(NotFound), next;
    }
    if found.value + 2 > end {
      // len -= skipped wraps around
      return Some(LeavesBlock), next;
    }
    next := found.value + 2;
    if end - next < |name| + 2 {
      ShortRest(mem, start, end, |name| + 3, next);
      return Some(NotFound), next;
    }
    done := None;
  }

  method SearchValue(mem: string, at: nat, end: nat) returns (v: Span)
    requires at <= end <= |mem| && Roomy(mem, end)
    ensures v == SearchedValue(mem, at, end)
  {
    var stop := NextBreak(mem, at, end);
    v := Span(at, if stop.Some? then stop.value - at else end - at);
  }

  /** `get_first_header_value`; the early exits never skip a line that qualifies. */
  method GetFirstHeaderValue(mem: string, start: nat, end: nat, name: string) returns (r: Scan)
    requires start <= end <= |mem| && Roomy(mem, end)
    ensures Scans(mem, start, end, name, r)
  {
    var current := start;
    while end - current > |name| + 3
      invariant Scanned(mem, start, end, name, current)
      decreases end - current
    {
      var done, next := NextCandidateLine(mem, start, end, name, current);
      if done.Some? {
        return done.value;
      }
      current := next;
      var yes := QualifiesAt(mem, start, end, name, current);
      if yes {
        var v := SearchValue(mem, current + |name| + 1, end);
        assert FoundFrom(mem, start, end, name, current, v);
        return Found(v);
      }
    }
    NextLine(mem, start, end, name, current);
    ShortRest(mem, start, end, |name| + 3, current);
    return NotFound;
  }

  /** On a sealed block the scanner stays inside and its answer is the first header's value. */
  lemma SealedScan(mem: string, start: nat, end: nat, name: string, r: Scan)
    requires start <= end <= |mem| && Roomy(mem, end) && Sealed(mem, end)
    requires Scans(mem, start, end, name, r)
    ensures !r.LeavesBlock? && FirstHeader(mem, start, end, name, r.ToOption())
  {
    if r.Found? {
      var s: nat :| FoundFrom(mem, start, end, name, s, r.value);
      BreakSearched(mem, s + |name| + 1, end);
    }
  }

  /** A block that the scanner leaves: "A" is no header of it, and its end cuts the CRLF. */
  lemma ScannerEscapes()
    ensures Escapes("X\r\nabcd\r\n", 0, 8, "A")
  {
    var mem := "X\r\nabcd\r\n";
    assert LineStart(mem, 0, 3) && FindBreak(mem, 3, 8).None?;
  }

  /** In a block that ends in CRLF the value is always followed by one. */
  lemma ValueEndsInBlock(mem: string, start: nat, end: nat, name: string, v: Span)
    requires start + 2 <= end <= |mem| && LineBreak(mem, end - 2)
    requires FirstHeader(mem, start, end, name, Some(v))
    ensures v.at + v.n + 2 <= end && LineBreak(mem, v.at + v.n)
  {
  }

  // ---- The case of letters does not matter ----

  /** Two names that differ in the case of letters only. */
  predicate SameUpToCase(n: string, m: string) {
    |n| == |m| && forall i :: 0 <= i < |n| ==> SameLetter(n[i], m[i])
  }

  lemma {:induction false} SameNameCase(n: string, m: string, line: string)
    requires SameUpToCase(n, m) && |line| == |n|
    ensures SameName(n, line) == SameName(m, line)
  {
    if n == [] {
    } else {
      FoldsLetters(n[0], m[0]);
      assert n[0] == '\0' <==> m[0] == '\0';
      forall i | 0 <= i < |n[1..]| ensures SameLetter(n[1..][i], m[1..][i]) {
        assert SameLetter(n[i + 1], m[i + 1]);
      }
      SameNameCase(n[1..], m[1..], line[1..]);
    }
  }

  lemma HeaderAtCase(mem: string, start: nat, end: nat, n: string, m: string, s: nat)
    requires end <= |mem| && SameUpToCase(n, m)
    ensures HeaderAt(mem, start, end, n, s) == HeaderAt(mem, start, end, m, s)
  {
    if s + |n| <= |mem| {
      SameNameCase(n, m, mem[s..s + |n|]);
    }
  }

  lemma FirstAtCase(mem: string, start: nat, end: nat, n: string, m: string, s: nat)
    requires end <= |mem| && SameUpToCase(n, m) && FirstAt(mem, start, end, n, s)
    ensures FirstAt(mem, start, end, m, s)
  {
    HeaderAtCase(mem, start, end, n, m, s);
    forall q: nat | q < s ensures !HeaderAt(mem, start, end, m, q) {
      HeaderAtCase(mem, start, end, n, m, q);
    }
  }

  /** The scanner's answer is determined. */
  lemma ScanIsUnique(mem: string, start: nat, end: nat, name: string, r: Scan, q: Scan)
    requires start <= end <= |mem| && Scans(mem, start, end, name, r) && Scans(mem, start, end, name, q)
    ensures r == q
  {
    if s: nat :| FirstAt(mem, start, end, name, s) {
      assert HeaderAt(mem, start, end, name, s);
      FoundIs(mem, start, end, name, s, r.value);
      FoundIs(mem, start, end, name, s, q.value);
    }
  }

  lemma FoundIs(mem: string, start: nat, end: nat, name: string, s: nat, v: Span)
    requires start <= end <= |mem| && FirstAt(mem, start, end, name, s)
    requires Scans(mem, start, end, name, Found(v))
    ensures v == SearchedValue(mem, s + |name| + 1, end)
  {
    var t: nat :| FoundFrom(mem, start, end, name, t, v);
    OneFirst(mem, start, end, name, s, t);
  }

  /** The scanner answers alike for names that differ in case only. */
  lemma ScanIgnoresCase(mem: string, start: nat, end: nat, n: string, m: string, r: Scan)
    requires start <= end <= |mem| && SameUpToCase(n, m) && Scans(mem, start, end, n, r)
    ensures Scans(mem, start, end, m, r)
  {
    forall s: nat ensures HeaderAt(mem, start, end, n, s) == HeaderAt(mem, start, end, m, s) {
      HeaderAtCase(mem, start, end, n, m, s);
    }
    if r.Found? {
      var s: nat :| FoundFrom(mem, start, end, n, s, r.value);
      FirstAtCase(mem, start, end, n, m, s);
      assert FoundFrom(mem, start, end, m, s, r.value);
    }
  }

  /** The first line of a block that begins with the name in whatever case, and a colon, gives the
      value: up to the next line break. */
  lemma FoundInAnyCase(mem: string, end: nat, name: string, line: string, s: nat, stop: nat)
    requires SameUpToCase(name, line) && Roomy(mem, end)
    requires 2 <= s && s + |line| + 1 <= stop && stop + 2 <= end <= |mem|
    requires mem[s..s + |line|] == line && mem[s + |line|] == ':'
    requires LineBreak(mem, s - 2) && forall q: nat :: q < s - 2 ==> !LineBreak(mem, q)
    requires LineBreak(mem, stop) && forall q: nat :: s + |line| < q < stop ==> !LineBreak(mem, q)
    ensures Scans(mem, 0, end, name, Found(Span(s + |line| + 1, stop - (s + |line| + 1))))
  {
    var at := s + |line| + 1;
    FirstInAnyCase(mem, end, name, line, s);
    FindBreakIs(mem, at, end, stop);
    BreakSearched(mem, at, end);
    assert FoundFrom(mem, 0, end, name, s, Span(at, stop - at));
  }

  lemma FirstInAnyCase(mem: string, end: nat, name: string, line: string, s: nat)
    requires SameUpToCase(name, line) && 2 <= s && s + |line| + 2 <= end <= |mem|
    requires mem[s..s + |line|] == line && mem[s + |line|] == ':'
    requires LineBreak(mem, s - 2) && forall q: nat :: q < s - 2 ==> !LineBreak(mem, q)
    ensures FirstAt(mem, 0, end, name, s)
  {
    SameNameIff(name, line);
    forall q: nat | q < s ensures !HeaderAt(mem, 0, end, name, q) {
      if 2 <= q {
        assert !LineBreak(mem, q - 2);
      }
    }
  }

  /** A line in other letters is found. */
  lemma LowerCaseLine()
    ensures var mem := "OK\r\n" + ("content-length" + ": 5\r\n\r\n");
      Scans(mem, 0, 25, "Content-Length", Found(Span(19, 2)))
  {
    var mem, name, line := "OK\r\n" + ("content-length" + ": 5\r\n\r\n"), "Content-Length", "content-length";
    forall i | 0 <= i < |name| ensures SameLetter(name[i], line[i]) {
      assert TwoCases('C', 'c', 2) && TwoCases('L', 'l', 11);
    }
    Middle("OK\r\n", line, ": 5\r\n\r\n");
    FoundInAnyCase(mem, 25, name, line, 4, 21);
  }

  lemma Middle(a: string, b: string, c: string)
    ensures (a + (b + c))[|a|..|a| + |b|] == b
  {
  }

  /** Where the scanner draws the line: a header needs a byte after the colon, and a line break
      before it. */
  lemma ShortestHeader()
    ensures Scans("X\r\nA:zz", 0, 5, "A", NotFound)
    ensures Scans("X\r\nA:zz", 0, 6, "A", Found(Span(5, 1)))
    ensures Scans("A:1\r\n\r\n", 0, 7, "A", NotFound)
  {
    var mem := "X\r\nA:zz";
    assert mem[3..4] == "A";
    BreakSearched(mem, 5, 6);
    assert FindBreak(mem, 5, 6).None?;
    assert FoundFrom(mem, 0, 6, "A", 3, Span(5, 1));
    assert forall s: nat :: !HeaderAt(mem, 0, 5, "A", s);
  }
}
