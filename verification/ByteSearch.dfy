/**
 The demo's own `memmem`. It looks for the needle's first byte up to the end of the haystack
 and then compares the whole needle, so a comparison may reach past the end. `mem` is the
 allocation that contains the haystack `mem[lo..hi]`.
 */
module ByteSearch {
  import opened Base

  predicate Matches(mem: string, p: nat, needle: string) {
    p + |needle| <= |mem| && mem[p..p + |needle|] == needle
  }

  /** What a search should answer: the leftmost occurrence that lies inside `mem[lo..hi]`. */
  function Find(mem: string, lo: nat, hi: nat, needle: string): (r: Option<nat>)
    requires lo <= hi <= |mem|
    ensures r.Some? ==> lo <= r.value && r.value + |needle| <= hi && Matches(mem, r.value, needle)
    ensures forall q :: lo <= q < (if r.Some? then r.value else hi) && q + |needle| <= hi ==> !Matches(mem, q, needle)
    decreases hi - lo
  {
    if lo + |needle| > hi then None
    else if Matches(mem, lo, needle) then Some(lo)
    else if lo == hi then None
    else Find(mem, lo + 1, hi, needle)
  }

  lemma FindIs(mem: string, lo: nat, hi: nat, needle: string, p: nat)
    requires lo <= hi <= |mem| && lo <= p && p + |needle| <= hi && Matches(mem, p, needle)
    requires forall q :: lo <= q < p ==> !Matches(mem, q, needle)
    ensures Find(mem, lo, hi, needle) == Some(p)
  {
  }

  /** The first occurrence of a byte: `memchr`. */
  function FirstByte(mem: string, lo: nat, hi: nat, c: char): (r: Option<nat>)
    requires lo <= hi <= |mem|
    ensures r.Some? ==> lo <= r.value < hi && mem[r.value] == c
    ensures forall q :: lo <= q < (if r.Some? then r.value else hi) ==> mem[q] != c
    decreases hi - lo
  {
    if lo == hi then None else if mem[lo] == c then Some(lo) else FirstByte(mem, lo + 1, hi, c)
  }

  method Memchr(mem: string, lo: nat, hi: nat, c: char) returns (r: Option<nat>)
    requires lo <= hi <= |mem|
    ensures r == FirstByte(mem, lo, hi, c)
  {
    var p := lo;
    while p < hi
      invariant lo <= p <= hi && FirstByte(mem, lo, hi, c) == FirstByte(mem, p, hi, c)
    {
      if mem[p] == c {
        return Some(p);
      }
      p := p + 1;
    }
    return None;
  }

  /** The one match past the end that the search can report. The needle's first byte does not stand
      at the last position with room for the whole needle; it does stand in the shorter tail
      behind that position; and from its first place there the needle matches, into the memory
      that follows the haystack. */
  function Straddle(mem: string, lo: nat, hi: nat, needle: string): (r: Option<nat>)
    requires lo <= hi <= |mem| && needle != []
    ensures r.Some? ==> hi - |needle| < r.value < hi && Matches(mem, r.value, needle)
  {
    if hi - lo < |needle| || mem[hi - |needle|] == needle[0] then None
    else
      match FirstByte(mem, hi - |needle| + 1, hi, needle[0])
      case None => None
      case Some(q) => if Matches(mem, q, needle) then Some(q) else None
  }

  /** What `memmem` answers. */
  function Search(mem: string, lo: nat, hi: nat, needle: string): Option<nat>
    requires lo <= hi <= |mem| && needle != []
  {
    match Find(mem, lo, hi, needle)
    case Some(p) => Some(p)
    case None => Straddle(mem, lo, hi, needle)
  }

  /** `memcmp(mem + p, needle, |needle|) == 0`: all the bytes compared must be the caller's. */
  method Memcmp(mem: string, p: nat, needle: string) returns (equal: bool)
    requires p + |needle| <= |mem|
    ensures equal <==> Matches(mem, p, needle)
  {
    equal := mem[p..p + |needle|] == needle;
  }

  /** When every comparison of the search stays in memory. The one comparison that can leave the
      haystack is made, when the needle does not occur, at the needle's first byte in the
      tail, unless that byte stands at the last position with room for the needle. */
  predicate InMemory(mem: string, lo: nat, hi: nat, needle: string)
    requires lo <= hi <= |mem| && needle != []
  {
    || Find(mem, lo, hi, needle).Some? || hi - lo < |needle| || mem[hi - |needle|] == needle[0]
    || match FirstByte(mem, hi - |needle| + 1, hi, needle[0])
       case None => true
       case Some(q) => q + |needle| <= |mem|
  }

  /** It does whenever |needle| - 1 bytes follow the haystack. */
  lemma SlackSuffices(mem: string, lo: nat, hi: nat, needle: string)
    requires lo <= hi <= |mem| && needle != [] && hi + |needle| - 1 <= |mem|
    ensures InMemory(mem, lo, hi, needle)
  {
  }

  /** `memmem`. `first` is the byte that the needle pointer points to, which the code reads even when
      the needle is empty; an empty needle is then found where that byte is. */
  method Memmem(mem: string, lo: nat, hi: nat, needle: string, first: char) returns (r: Option<nat>)
    requires lo <= hi <= |mem| && (needle != [] ==> first == needle[0] && InMemory(mem, lo, hi, needle))
    ensures r == if needle == [] then FirstByte(mem, lo, hi, first) else Search(mem, lo, hi, needle)
  {
    var p := lo;
    while |needle| <= hi - p
      invariant lo <= p <= hi && if needle == [] then p == lo else Passed(mem, lo, p, hi, needle)
      decreases hi - p
    {
      var found := Memchr(mem, p, hi, first);
      if found.None? {
        if needle != [] {
          NoCandidate(mem, lo, p, hi, needle);
        }
        return None;
      }
      var c := found.value;
      if needle != [] {
        NextCandidate(mem, lo, p, hi, needle, c);
        ComparedInMemory(mem, lo, p, hi, needle, c);
      }
      var equal := Memcmp(mem, c, needle);
      if equal {
        return Some(c);
      }
      p := c + 1;
    }
    return None;
  }

  /** Nothing before `p` matches, and nothing at all when no room is left from there. */
  ghost predicate Passed(mem: string, lo: nat, p: nat, hi: nat, needle: string)
    requires lo <= p <= hi <= |mem| && needle != []
  {
    && (forall q :: lo <= q < p ==> !Matches(mem, q, needle))
    && (p + |needle| > hi ==> Search(mem, lo, hi, needle).None?)
  }

  /** A candidate without room for the needle is the first one in the tail. */
  lemma ComparedInMemory(mem: string, lo: nat, p: nat, hi: nat, needle: string, c: nat)
    requires lo <= p <= hi <= |mem| && needle != [] && p + |needle| <= hi && InMemory(mem, lo, hi, needle)
    requires FirstByte(mem, p, hi, needle[0]) == Some(c)
    requires Find(mem, lo, hi, needle).Some? ==> c + |needle| <= hi
    ensures c + |needle| <= |mem|
  {
  }

  lemma NoCandidate(mem: string, lo: nat, p: nat, hi: nat, needle: string)
    requires lo <= p <= hi <= |mem| && needle != [] && p + |needle| <= hi && Passed(mem, lo, p, hi, needle)
    requires FirstByte(mem, p, hi, needle[0]).None?
    ensures Search(mem, lo, hi, needle).None?
  {
  }

  lemma NextCandidate(mem: string, lo: nat, p: nat, hi: nat, needle: string, c: nat)
    requires lo <= p <= hi <= |mem| && needle != [] && p + |needle| <= hi && Passed(mem, lo, p, hi, needle)
    requires FirstByte(mem, p, hi, needle[0]) == Some(c)
    ensures Find(mem, lo, hi, needle).Some? ==> c + |needle| <= hi
    ensures if Matches(mem, c, needle) then Search(mem, lo, hi, needle) == Some(c)
            else Passed(mem, lo, c + 1, hi, needle)
  {
    forall q | lo <= q < c ensures !Matches(mem, q, needle) {
      if p <= q && Matches(mem, q, needle) {
        FirstMatched(mem, q, needle);
      }
    }
    var f := Find(mem, lo, hi, needle);
    assert f.Some? ==> c <= f.value;
    if Matches(mem, c, needle) && c + |needle| <= hi {
      FindIs(mem, lo, hi, needle, c);
    }
  }

  lemma FirstMatched(mem: string, q: nat, needle: string)
    requires needle != [] && Matches(mem, q, needle)
    ensures mem[q] == needle[0]
  {
    assert mem[q..q + |needle|][0] == mem[q];
  }

  /** The bytes that mislead the search: the last full position does not start with the needle's
      first byte, the tail does have that byte, and from its first occurrence there the
      needle continues past the end of the haystack. */
  ghost predicate TailSpills(mem: string, lo: nat, hi: nat, needle: string)
    requires lo <= hi <= |mem| && needle != []
  {
    && |needle| <= hi - lo && mem[hi - |needle|] != needle[0]
    && exists q ::
         && hi - |needle| < q < hi && mem[q] == needle[0] && Matches(mem, q, needle)
         && forall k :: hi - |needle| < k < q ==> mem[k] != needle[0]
  }

  /** The search answers correctly iff the needle occurs or the tail does not spill. */
  lemma SearchCorrectIff(mem: string, lo: nat, hi: nat, needle: string)
    requires lo <= hi <= |mem| && needle != []
    ensures Search(mem, lo, hi, needle) == Find(mem, lo, hi, needle)
       <==> (exists p :: lo <= p && p + |needle| <= hi && Matches(mem, p, needle)) || !TailSpills(mem, lo, hi, needle)
  {
  }

  /** A false match: "abc" and a carriage return, followed by stale bytes that complete the
      blank line. The search reports position 3 although the haystack has no blank line. */
  lemma FalseMatch()
    ensures Find("abc\r\n\r\n", 0, 4, "\r\n\r\n") == None
    ensures Search("abc\r\n\r\n", 0, 4, "\r\n\r\n") == Some(3)
  {
  }
}
