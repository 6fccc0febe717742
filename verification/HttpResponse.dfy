/** The response that the demo server writes, and how the demo client reads it back. */
module HttpResponse {
  import opened Base
  import opened ByteSearch
  import opened HttpHeaders
  import opened PlaintextBuffer

  const PREFIX: string := "HTTP/1.1 200 OK\r\nContent-Length:"
  const NAME: string := "Content-Length"
  const ULONG_MAX: nat := 0xFFFF_FFFF_FFFF_FFFF

  predicate IsDigit(c: char) { '0' <= c <= '9' }

  function Digit(d: nat): (c: char)
    requires d < 10
    ensures IsDigit(c)
  {
    ('0' as int + d) as char
  }

  predicate AllDigits(s: string) {
    forall i :: 0 <= i < |s| ==> IsDigit(s[i])
  }

  /** `%d` of a non-negative number. */
  function Decimal(n: nat): (s: string)
    ensures s != "" && AllDigits(s)
  {
    if n < 10 then [Digit(n)] else Decimal(n / 10) + [Digit(n % 10)]
  }

  function Value(s: string): nat
    requires AllDigits(s)
  {
    if s == "" then 0 else 10 * Value(s[..|s| - 1]) + (s[|s| - 1] as int - '0' as int)
  }

  lemma {:induction false} DecimalValue(n: nat)
    ensures Value(Decimal(n)) == n
  {
    if n < 10 {
      assert [Digit(n)][..0] == "";
    } else {
      DecimalValue(n / 10);
      assert Decimal(n)[..|Decimal(n)| - 1] == Decimal(n / 10);
    }
  }

  function Pow10(k: nat): nat {
    if k == 0 then 1 else 10 * Pow10(k - 1)
  }

  lemma {:induction false} DecimalLength(n: nat, k: nat)
    requires k > 0
    ensures |Decimal(n)| <= k <==> n < Pow10(k)
  {
    if n >= 10 && k > 1 {
      DecimalLength(n / 10, k - 1);
    } else if n < 10 && k > 1 {
      DecimalLength(n, k - 1);
    } else {
      assert Pow10(1) == 10 * Pow10(0);
    }
  }

  /** The last digit printed is the least significant one. */
  lemma DecimalAppend(m: nat, d: nat)
    requires m > 0 && d < 10
    ensures Decimal(10 * m + d) == Decimal(m) + [Digit(d)]
  {
    var n := 10 * m + d;
    assert n / 10 == m && n % 10 == d;
  }

  // ---- The server's layout ----

  function Head(size: nat): string {
    PREFIX + (" " + Decimal(size) + BLANK_LINE)
  }

  function Response(size: nat): string {
    Head(size) + (seq(size, i => 'a') + "\n")
  }

  /** The buffer is allocated with room for 15 bytes besides prefix and body; with the
      terminating NUL the response fits iff the size has at most eight digits. */
  lemma FitsIff(size: nat)
    ensures |Response(size)| + 1 <= |PREFIX| + 15 + size <==> size < 100_000_000
  {
    DecimalLength(size, 8);
    assert Pow10(2) == 100 && Pow10(4) == 10000 && Pow10(6) == 1000000 && Pow10(8) == 100000000;
  }

  /** The head that the demo server sends. */
  lemma DemoHead()
    ensures Head(10000) == "HTTP/1.1 200 OK\r\nContent-Length: 10000\r\n\r\n"
    ensures |Response(10000)| == 42 + 10000 + 1
  {
    DecimalAppend(1, 0);
    DecimalAppend(10, 0);
    DecimalAppend(100, 0);
    DecimalAppend(1000, 0);
    assert Decimal(1) == "1";
    assert Decimal(10000) == "10000";
  }

  // ---- The bytes of the head ----

  lemma PrefixBreaks(i: nat)
    requires i < |PREFIX|
    ensures PREFIX[i] == '\r' <==> i == 15
  {
  }

  lemma HeadFront(size: nat)
    ensures var d, hd := Decimal(size), Head(size);
      && |PREFIX| == 32 && |hd| == 37 + |d|
      && (forall i :: 0 <= i < 32 ==> hd[i] == PREFIX[i])
      && (forall i :: 33 <= i < 33 + |d| ==> hd[i] == d[i - 33])
  {
  }

  lemma HeadBack(size: nat)
    ensures var hd, h := Head(size), |Head(size)|;
      && h >= 38 && hd[32] == ' '
      && hd[h - 4] == '\r' && hd[h - 3] == '\n' && hd[h - 2] == '\r' && hd[h - 1] == '\n'
  {
    HeadFront(size);
    var tail := " " + Decimal(size) + BLANK_LINE;
    assert forall i :: 0 <= i < |tail| ==> Head(size)[32 + i] == tail[i];
  }

  /** Carriage returns stand in three places of the head only. */
  lemma HeadReturns(size: nat, i: nat)
    requires i < |Head(size)|
    ensures Head(size)[i] == '\r' <==> i == 15 || i == |Head(size)| - 4 || i == |Head(size)| - 2
  {
    HeadFront(size);
    HeadBack(size);
    if i < 32 {
      PrefixBreaks(i);
    } else if 33 <= i < 33 + |Decimal(size)| {
      assert IsDigit(Decimal(size)[i - 33]);
    }
  }

  /** The first `len` bytes of `mem` are those of the response, as far as the head goes. */
  ghost predicate Genuine(mem: string, len: nat, size: nat) {
    len <= |mem| && forall i :: 0 <= i < len && i < |Head(size)| ==> mem[i] == Head(size)[i]
  }

  lemma BlankLineBytes(mem: string, q: nat)
    ensures Matches(mem, q, BLANK_LINE)
       <==> q + 4 <= |mem| && mem[q] == '\r' && mem[q + 1] == '\n' && mem[q + 2] == '\r' && mem[q + 3] == '\n'
  {
    if q + 4 <= |mem| {
      assert mem[q..q + 4] == [mem[q], mem[q + 1], mem[q + 2], mem[q + 3]];
    }
  }

  /** The only blank line whose first three bytes have arrived is the one that ends the head. */
  lemma OneBlankLine(mem: string, len: nat, size: nat, q: nat)
    requires Genuine(mem, len, size) && q + 3 <= len && q + 2 < |Head(size)| && Matches(mem, q, BLANK_LINE)
    ensures q == |Head(size)| - 4
  {
    BlankLineBytes(mem, q);
    HeadBack(size);
    HeadReturns(size, q);
    HeadReturns(size, q + 2);
  }

  // ---- Looking for the end of the head ----

  /** Stale bytes after the first 16 or 17 of the response complete a blank line. */
  predicate WrongSpill(mem: string, len: nat) {
    16 <= len && Matches(mem, 15, BLANK_LINE)
  }

  /** The head has arrived, or all but its last bytes have and stale ones complete it. */
  predicate HeadVisible(mem: string, len: nat, size: nat) {
    |Head(size)| <= len || (|Head(size)| - 3 <= len && Matches(mem, |Head(size)| - 4, BLANK_LINE))
  }

  /** Once the head has arrived its blank line is found, whatever follows. */
  lemma BodyFound(mem: string, len: nat, size: nat)
    requires Genuine(mem, len, size) && |Head(size)| <= len
    ensures Search(mem, 0, len, BLANK_LINE) == Find(mem, 0, len, BLANK_LINE) == Some(|Head(size)| - 4)
  {
    var h := |Head(size)|;
    HeadBack(size);
    BlankLineBytes(mem, h - 4);
    forall q: nat | q < h - 4 ensures !Matches(mem, q, BLANK_LINE) {
      if Matches(mem, q, BLANK_LINE) {
        OneBlankLine(mem, len, size, q);
      }
    }
    FindIs(mem, 0, len, BLANK_LINE, h - 4);
  }

  lemma NoHeadYet(mem: string, len: nat, size: nat)
    requires Genuine(mem, len, size) && len < |Head(size)|
    ensures Find(mem, 0, len, BLANK_LINE) == None
  {
    var f := Find(mem, 0, len, BLANK_LINE);
    if f.Some? {
      OneBlankLine(mem, len, size, f.value);
    }
  }

  /** The first carriage return in the tail of a partial head is at 15 or begins the blank line. */
  lemma TailReturns(mem: string, len: nat, size: nat, q: nat)
    requires Genuine(mem, len, size) && 4 <= len < |Head(size)|
    requires FirstByte(mem, len - 3, len, '\r') == Some(q) && mem[len - 4] != '\r'
    ensures q == 15 || q == |Head(size)| - 4
  {
    HeadReturns(size, q);
    HeadBack(size);
  }

  /** While the head is incomplete, the search answers None iff the tail does not spill. It can
      only spill to position 15, which is wrong, or to the head's own blank line. */
  lemma PartialSearch(mem: string, len: nat, size: nat)
    requires Genuine(mem, len, size) && len < |Head(size)|
    ensures var r, h := Search(mem, 0, len, BLANK_LINE), |Head(size)|;
      && (r.None? <==> !TailSpills(mem, 0, len, BLANK_LINE))
      && (r.Some? ==> r.value == 15 || r.value == h - 4)
      && (r == Some(15) <==> WrongSpill(mem, len))
      && (r == Some(h - 4) <==> HeadVisible(mem, len, size))
  {
    var h := |Head(size)|;
    NoHeadYet(mem, len, size);
    SearchCorrectIff(mem, 0, len, BLANK_LINE);
    HeadBack(size);
    if Search(mem, 0, len, BLANK_LINE).Some? {
      TailReturns(mem, len, size, Search(mem, 0, len, BLANK_LINE).value);
    }
    if WrongSpill(mem, len) {
      SpillsFrom(mem, len, size, 15);
    }
    if HeadVisible(mem, len, size) {
      SpillsFrom(mem, len, size, h - 4);
    }
  }

  /** A blank line that begins in the tail at one of the two places is what the search reports. */
  lemma SpillsFrom(mem: string, len: nat, size: nat, q: nat)
    requires Genuine(mem, len, size) && q < len < |Head(size)| && Matches(mem, q, BLANK_LINE)
    requires q == 15 || q == |Head(size)| - 4
    ensures Search(mem, 0, len, BLANK_LINE) == Some(q)
  {
    NoHeadYet(mem, len, size);
    HeadBack(size);
    BlankLineBytes(mem, q);
    if q + 3 <= len {
      OneBlankLine(mem, len, size, q);
    }
    forall i: nat | i < len ensures mem[i] == '\r' <==> i == 15 || i == |Head(size)| - 4 || i == |Head(size)| - 2 {
      HeadReturns(size, i);
    }
  }

  /** A genuine start of any response on which the search goes wrong: 16 bytes have arrived and
      the next three bytes of memory happen to be a line feed and a line break. */
  lemma EarlySpill(rest: string, size: nat)
    ensures var mem := PREFIX[..16] + "\n\r\n" + rest;
      Genuine(mem, 16, size) && WrongSpill(mem, 16) && Search(mem, 0, 16, BLANK_LINE) == Some(15)
  {
    var mem := PREFIX[..16] + "\n\r\n" + rest;
    assert mem == PREFIX[..16] + ("\n\r\n" + rest);
    HeadFront(size);
    forall i | 0 <= i < 16 ensures mem[i] == Head(size)[i] {
      assert mem[i] == PREFIX[i];
    }
    assert mem[16] == '\n' && mem[17] == '\r' && mem[18] == '\n';
    PrefixBreaks(15);
    BlankLineBytes(mem, 15);
    PartialSearch(mem, 16, size);
  }

  // ---- Reading Content-Length ----

  predicate IsSpace(c: char) {
    c == ' ' || '\t' <= c <= '\r'
  }

  function SkipSpaces(mem: string, at: nat): (p: nat)
    requires at <= |mem|
    ensures at <= p <= |mem|
    decreases |mem| - at
  {
    if at < |mem| && IsSpace(mem[at]) then SkipSpaces(mem, at + 1) else at
  }

  function DigitsEnd(mem: string, at: nat): (p: nat)
    requires at <= |mem|
    ensures at <= p <= |mem| && AllDigits(mem[at..p])
    ensures p < |mem| ==> !IsDigit(mem[p])
    decreases |mem| - at
  {
    if at < |mem| && IsDigit(mem[at]) then
      var p := DigitsEnd(mem, at + 1);
      assert mem[at..p] == [mem[at]] + mem[at + 1..p];
      p
    else at
  }

  /** `strtoul(mem + at, &end, 10)` on unsigned text: white space, then digits, saturating. None
      when there is no digit, in which case `end` is left at the start. */
  function Strtoul(mem: string, at: nat): Option<nat>
    requires at <= |mem|
  {
    var from := SkipSpaces(mem, at);
    var to := DigitsEnd(mem, from);
    if from == to then None
    else
      var v := Value(mem[from..to]);
      Some(if v <= ULONG_MAX then v else ULONG_MAX)
  }

  lemma DigitsEndIs(mem: string, at: nat, p: nat)
    requires at <= p < |mem| && AllDigits(mem[at..p]) && !IsDigit(mem[p])
    ensures DigitsEnd(mem, at) == p
    decreases p - at
  {
    if at == p {
    } else {
      assert mem[at] == mem[at..p][0];
      assert mem[at + 1..p] == mem[at..p][1..];
      DigitsEndIs(mem, at + 1, p);
    }
  }

  lemma {:induction false} SameNameReflexive(a: string)
    ensures SameName(a, a)
  {
    if a == "" {
    } else {
      SameNameReflexive(a[1..]);
    }
  }

  lemma NameBytes(mem: string, size: nat)
    requires Genuine(mem, |Head(size)|, size)
    ensures |Head(size)| >= 38 && mem[17..31] == NAME && mem[31] == ':' && LineBreak(mem, 15)
  {
    HeadFront(size);
    HeadBack(size);
    assert PREFIX[17..31] == NAME;
    forall i | 0 <= i < 14 ensures mem[17..31][i] == NAME[i] {
      assert mem[17 + i] == Head(size)[17 + i] == PREFIX[17 + i] == PREFIX[17..31][i];
    }
    assert mem[31] == PREFIX[31] && mem[15] == PREFIX[15] && mem[16] == PREFIX[16];
  }

  lemma NoEarlierName(mem: string, size: nat, q: nat)
    requires Genuine(mem, |Head(size)|, size) && q < 17
    ensures !HeaderAt(mem, 0, |Head(size)|, NAME, q)
  {
    HeadFront(size);
    if 2 <= q {
      PrefixBreaks(q - 2);
    }
  }

  lemma NameLine(mem: string, size: nat)
    requires Genuine(mem, |Head(size)|, size)
    ensures FirstAt(mem, 0, |Head(size)|, NAME, 17)
  {
    NameBytes(mem, size);
    SameNameReflexive(NAME);
    assert HeaderAt(mem, 0, |Head(size)|, NAME, 17);
    forall q: nat | q < 17 ensures !HeaderAt(mem, 0, |Head(size)|, NAME, q) {
      NoEarlierName(mem, size, q);
    }
  }

  /** The Content-Length lookup yields exactly the text the server printed. */
  lemma LengthFound(mem: string, size: nat)
    requires Genuine(mem, |Head(size)|, size)
    ensures FirstHeader(mem, 0, |Head(size)|, NAME, Some(Span(32, 1 + |Decimal(size)|)))
  {
    NameLine(mem, size);
    HeadFront(size);
    HeadBack(size);
    var h := |Head(size)|;
    forall q: nat | 32 <= q < h - 4 ensures !LineBreak(mem, q) {
      HeadReturns(size, q);
    }
    FindBreakIs(mem, 32, h, h - 4);
    assert ValueAt(mem, 17 + |NAME| + 1, h) == Span(32, 1 + |Decimal(size)|);
  }

  /** The number read is the number written, up to the largest `unsigned long`. */
  lemma LengthRead(mem: string, size: nat)
    requires Genuine(mem, |Head(size)|, size)
    ensures Strtoul(mem, 32) == Some(if size < 0x1_0000_0000_0000_0000 then size else 0xFFFF_FFFF_FFFF_FFFF)
  {
    HeadFront(size);
    HeadBack(size);
    var d := Decimal(size);
    assert mem[33..33 + |d|] == d;
    assert IsDigit(d[0]) && mem[33] == d[0];
    assert SkipSpaces(mem, 32) == SkipSpaces(mem, 33) == 33;
    DigitsEndIs(mem, 33, 33 + |d|);
    DecimalValue(size);
  }

  /** All white space is skipped, reading stops at the first byte that is no digit, and text without a
      digit is no number. */
  lemma TextRead()
    ensures Strtoul("\t\r\n 42x", 0) == Some(42) && Strtoul(" x1", 0) == None
  {
    var mem := "\t\r\n 42x";
    assert SkipSpaces(mem, 0) == SkipSpaces(mem, 1) == SkipSpaces(mem, 2) == SkipSpaces(mem, 3) == SkipSpaces(mem, 4);
    assert mem[4..6] == "42";
    DigitsEndIs(mem, 4, 6);
    assert "42"[..1] == "4" && "4"[..0] == "";
    assert Value("42") == 10 * Value("4") + 2;
    assert SkipSpaces(" x1", 0) == SkipSpaces(" x1", 1) == 1;
  }

  // ---- One look at the buffer ----

  /** Nothing yet; a head without a usable length, on which the client gives up; or both numbers. */
  datatype HeadSearch = NoHead | BadHead | GoodHead(headersLen: nat, contentLength: nat)

  /** What a lookup in the header block `mem[..end]` amounts to. */
  function Judged(mem: string, end: nat, span: Option<Span>): HeadSearch
    requires span.Some? ==> span.value.at <= |mem|
  {
    if span.None? then BadHead
    else match Strtoul(mem, span.value.at)
         case None => BadHead
         case Some(n) => GoodHead(end, n)
  }

  ghost predicate LooksLike(mem: string, len: nat, r: HeadSearch)
    requires len <= |mem|
  {
    match Search(mem, 0, len, BLANK_LINE)
    case None => r == NoHead
    case Some(p) => JudgedAt(mem, p + 4, r)
  }

  ghost predicate JudgedAt(mem: string, end: nat, r: HeadSearch)
    requires end <= |mem|
  {
    exists span: Option<Span> ::
      && FirstHeader(mem, 0, end, NAME, span) && (span.Some? ==> span.value.at <= |mem|)
      && r == Judged(mem, end, span)
  }

  /** Look up Content-Length in a sealed block, and read the number. */
  method JudgeBlock(mem: string, end: nat) returns (r: HeadSearch)
    requires end <= |mem| && Roomy(mem, end) && Sealed(mem, end)
    ensures JudgedAt(mem, end, r)
  {
    var scan := GetFirstHeaderValue(mem, 0, end, NAME);
    SealedScan(mem, 0, end, NAME, scan);
    var span := scan.ToOption();
    SpanInside(mem, end, span);
    r := Judged(mem, end, span);
  }

  /** What the client does after a read while it has no head. */
  method ReadHead(vec: ByteVec) returns (r: HeadSearch)
    requires vec.Valid() && vec.Available() >= CHUNK
    ensures LooksLike(vec.data[..], vec.len, r)
  {
    var mem := vec.data[..];
    var body := BodyBeginning(vec);
    if body.None? {
      return NoHead;
    }
    BlankLineSeals(mem, vec.len);
    r := JudgeBlock(mem, body.value);
  }

  lemma SpanInside(mem: string, end: nat, span: Option<Span>)
    requires end <= |mem| && FirstHeader(mem, 0, end, NAME, span)
    ensures span.Some? ==> span.value.at <= |mem|
  {
  }

  /** A block that ends in a blank line is sealed, so the scanner cannot leave it. */
  lemma BlankLineSeals(mem: string, len: nat)
    requires len + CHUNK <= |mem| && Search(mem, 0, len, BLANK_LINE).Some?
    ensures var end := Search(mem, 0, len, BLANK_LINE).value + 4;
      end <= |mem| && Roomy(mem, end) && Sealed(mem, end)
  {
    BlankLineBytes(mem, Search(mem, 0, len, BLANK_LINE).value);
  }

  /** What a look at genuine bytes yields. */
  function ExpectedLook(mem: string, len: nat, size: nat): HeadSearch {
    if HeadVisible(mem, len, size) then GoodHead(|Head(size)|, size)
    else if WrongSpill(mem, len) then BadHead
    else NoHead
  }

  /** A look at any genuine start of a response, however long. */
  lemma LookAtGenuine(mem: string, len: nat, size: nat, r: HeadSearch)
    requires Genuine(mem, len, size) && size <= ULONG_MAX && LooksLike(mem, len, r)
    ensures r == ExpectedLook(mem, len, size)
  {
    var h := |Head(size)|;
    if h <= len {
      BodyFound(mem, len, size);
      JudgedGood(mem, size, r);
    } else {
      PartialSearch(mem, len, size);
      HeadBack(size);
      if HeadVisible(mem, len, size) {
        Completed(mem, len, size);
        JudgedGood(mem, size, r);
      } else if WrongSpill(mem, len) {
        NoNameBefore19(mem, len, size);
      }
    }
  }

  lemma JudgedGood(mem: string, size: nat, r: HeadSearch)
    requires Genuine(mem, |Head(size)|, size) && size <= ULONG_MAX
    requires JudgedAt(mem, |Head(size)|, r)
    ensures r == GoodHead(|Head(size)|, size)
  {
    var span: Option<Span> :|
      && FirstHeader(mem, 0, |Head(size)|, NAME, span) && (span.Some? ==> span.value.at <= |mem|)
      && r == Judged(mem, |Head(size)|, span);
    LengthFound(mem, size);
    FirstHeaderIsUnique(mem, 0, |Head(size)|, NAME, span, Some(Span(32, 1 + |Decimal(size)|)));
    LengthRead(mem, size);
  }

  /** Stale bytes that complete the head's own blank line complete the head. */
  lemma Completed(mem: string, len: nat, size: nat)
    requires Genuine(mem, len, size) && |Head(size)| - 4 < len && Matches(mem, |Head(size)| - 4, BLANK_LINE)
    ensures Genuine(mem, |Head(size)|, size)
  {
    HeadBack(size);
    BlankLineBytes(mem, |Head(size)| - 4);
  }

  lemma NoNameBefore19(mem: string, len: nat, size: nat)
    requires Genuine(mem, len, size) && 16 <= len && 19 <= |mem|
    ensures FirstHeader(mem, 0, 19, NAME, None)
    ensures forall span: Option<Span> :: FirstHeader(mem, 0, 19, NAME, span) ==> span == None
  {
    HeadFront(size);
    forall s: nat ensures !HeaderAt(mem, 0, 19, NAME, s) {
      if 2 <= s <= 3 {
        PrefixBreaks(s - 2);
      }
    }
  }
}
