/**
 The demo's growable buffer and the loop that drains a connection's plaintext into it.
 `size_t` arithmetic wraps at 2^64; `realloc` fails above a limit below 2^63, as no C
 object can be larger than PTRDIFF_MAX.
 */
module PlaintextBuffer {
  import opened Base
  import opened ByteSearch
  import opened HttpHeaders
  import ResultCodes

  const SIZE_MODULUS: nat := 0x1_0000_0000_0000_0000
  const OBJECT_LIMIT: nat := 0x8000_0000_0000_0000
  const CHUNK: nat := 1024

  function Pow2(k: nat): (p: nat)
    ensures p >= 1
  {
    if k == 0 then 1 else 2 * Pow2(k - 1)
  }

  class ByteVec {
    var data: array<char>
    var len: nat
    /** The largest size `realloc` grants. */
    const limit: nat
    /** How often the buffer was reallocated, and how many bytes that moved. */
    ghost var reallocs: nat
    ghost var moved: nat

    ghost predicate Valid()
      reads this
    {
      len <= data.Length <= limit < OBJECT_LIMIT
    }

    ghost function Contents(): string
      requires Valid()
      reads this, data
    {
      data[..len]
    }

    /** What holds over every run in which room is asked for 1024 bytes at a time. */
    ghost predicate Amortized()
      reads this
    {
      && data.Length <= 2 * (len + CHUNK)
      && moved <= data.Length
      && (reallocs > 0 ==> data.Length >= CHUNK * Pow2(reallocs - 1))
    }

    constructor (limit: nat)
      requires limit < OBJECT_LIMIT
      ensures Valid() && Amortized() && Contents() == "" && data.Length == 0 && fresh(data)
      ensures this.limit == limit && reallocs == 0 && moved == 0
    {
      this.limit := limit;
      data := new char[0];
      len, reallocs, moved := 0, 0, 0;
    }

    function Available(): nat
      requires Valid()
      reads this
    {
      data.Length - len
    }

    method Consume(n: nat)
      requires Valid() && n <= Available()
      modifies this`len
      ensures Valid() && len == old(len) + n
      ensures old(Amortized()) ==> Amortized()
    {
      len := len + n;
    }

    /** `bytevec_ensure_available`: at least doubles when it must grow at all. A success means
        that there is room, unless the size asked for wraps around. */
    method EnsureAvailable(n: nat) returns (ok: bool)
      requires Valid() && n < SIZE_MODULUS
      modifies this`data, this`reallocs, this`moved
      ensures Valid() && len == old(len) && Contents() == old(Contents())
      ensures data == old(data) || fresh(data)
      ensures old(data.Length) <= data.Length
      ensures ok ==> (Available() >= n <==> old(len) + n < SIZE_MODULUS)
      ensures !ok ==> data == old(data) && old(Available()) < n && NewSize(old(len), old(data.Length), n) > limit
      ensures old(Available()) >= n ==> ok && data == old(data)
      ensures old(Available()) < n && ok ==> data.Length == NewSize(old(len), old(data.Length), n)
      ensures reallocs == old(reallocs) + if data == old(data) then 0 else 1
      ensures moved == old(moved) + if data == old(data) then 0 else old(data.Length)
      ensures n == CHUNK && old(Amortized()) ==> Amortized()
    {
      ok := true;
      var available := data.Length - len;
      if available < n {
        var newsize := (len + n) % SIZE_MODULUS;
        if newsize < (data.Length * 2) % SIZE_MODULUS {
          newsize := (data.Length * 2) % SIZE_MODULUS;
        }
        NewSizeExact(len, data.Length, n);
        if newsize > limit {
          return false;
        }
        Realloc(newsize);
      }
    }

    method Realloc(newsize: nat)
      requires Valid() && 2 * data.Length <= newsize <= limit
      modifies this`data, this`reallocs, this`moved
      ensures Valid() && Contents() == old(Contents())
      ensures fresh(data) && data.Length == newsize
      ensures reallocs == old(reallocs) + 1 && moved == old(moved) + old(data.Length)
    {
      var bigger := new char[newsize];
      forall i | 0 <= i < data.Length {
        bigger[i] := data[i];
      }
      assert bigger[..len] == data[..len];
      reallocs, moved := reallocs + 1, moved + data.Length;
      data := bigger;
    }
  }

  /** The size asked of `realloc`, in `size_t` arithmetic. */
  function NewSize(len: nat, capacity: nat, n: nat): nat {
    var sum, twice := (len + n) % SIZE_MODULUS, (capacity * 2) % SIZE_MODULUS;
    if sum < twice then twice else sum
  }

  /** Doubling never wraps, as no object is that large. The sum wraps iff it reaches 2^64, and
      then the buffer is merely doubled, which is not enough. */
  lemma NewSizeExact(len: nat, capacity: nat, n: nat)
    requires len <= capacity < OBJECT_LIMIT && capacity - len < n < SIZE_MODULUS
    ensures NewSize(len, capacity, n) >= 2 * capacity
    ensures NewSize(len, capacity, n) >= len + n <==> len + n < SIZE_MODULUS
    ensures n <= OBJECT_LIMIT ==> NewSize(len, capacity, n) == if len + n < 2 * capacity then 2 * capacity else len + n
    ensures len + n >= SIZE_MODULUS ==> NewSize(len, capacity, n) == 2 * capacity
  {
    if len + n >= SIZE_MODULUS {
      assert (len + n) % SIZE_MODULUS == len + n - SIZE_MODULUS;
    }
  }

  /** A request that "succeeds" without room: one byte held, all but one of 2^64 asked for. */
  lemma WrappedRequest()
    ensures NewSize(1, 1, SIZE_MODULUS - 1) == 2
  {
  }

  // ---- Draining a connection ----

  datatype Closing = StillOpen | CleanlyClosed | Truncated

  function Flat(pieces: seq<string>): string {
    if pieces == [] then "" else pieces[0] + Flat(pieces[1..])
  }

  /** The plaintext that rustls has ready, in pieces: one read returns at most one piece. */
  class PlaintextReader {
    var pieces: seq<string>
    const closing: Closing

    constructor (pieces: seq<string>, closing: Closing)
      ensures this.pieces == pieces && this.closing == closing
    {
      this.pieces, this.closing := pieces, closing;
    }

    ghost predicate Valid()
      reads this
    {
      "" !in pieces
    }

    ghost function Pending(): string
      reads this
    {
      Flat(pieces)
    }

    /** `rustls_connection_read`: a NULL buffer or a NULL output pointer is an error. */
    method Read(buf: array?<char>, at: nat, count: nat, hasOut: bool) returns (code: ResultCodes.Code, n: nat)
      requires Valid() && (buf != null ==> at + count <= buf.Length)
      modifies this`pieces, buf
      ensures Valid()
      ensures buf == null || !hasOut ==>
        && code == ResultCodes.NULL_PARAMETER && n == 0 && pieces == old(pieces)
        && (buf != null ==> buf[..] == old(buf[..]))
      ensures buf != null && hasOut ==> ReadEffect(buf, old(buf[..]), at, count, code, n, old(Pending()))
    {
      if buf == null || !hasOut {
        return ResultCodes.NULL_PARAMETER, 0;
      }
      code, n := ReadInto(buf, at, count);
    }

    /** The effect of a read into `buf[at..at + count]`. Zero bytes with Ok means an empty buffer
        or a clean close; otherwise an empty queue is an error code. */
    ghost predicate ReadEffect(buf: array<char>, before: string, at: nat, count: nat,
                               code: ResultCodes.Code, n: nat, had: string)
      requires at + count <= buf.Length == |before|
      reads this, buf
    {
      && n <= count && buf[..at] == before[..at] && buf[at + count..] == before[at + count..]
      && buf[at..at + n] + Pending() == had
      && (code != ResultCodes.OK ==> Pending() == had == "" && n == 0)
      && (count == 0 ==> code == ResultCodes.OK)
      && (code == ResultCodes.OK && n == 0 && count > 0 ==> Pending() == "" && closing == CleanlyClosed)
      && (code == ResultCodes.PLAINTEXT_EMPTY ==> closing == StillOpen)
      && (code == 7000 || code == 7011 || code == 7010) && (code == 7010 ==> closing == Truncated)
    }

    method ReadInto(buf: array<char>, at: nat, count: nat) returns (code: ResultCodes.Code, n: nat)
      requires Valid() && at + count <= buf.Length
      modifies this`pieces, buf
      ensures Valid() && ReadEffect(buf, old(buf[..]), at, count, code, n, old(Pending()))
    {
      code, n := ResultCodes.OK, 0;
      if count == 0 {
        return;
      }
      if pieces == [] {
        match closing {
          case StillOpen => code := ResultCodes.PLAINTEXT_EMPTY;
          case CleanlyClosed =>
          case Truncated => code := ResultCodes.UNEXPECTED_EOF;
        }
        return;
      }
      var first, rest := pieces[0], pieces[1..];
      n := if |first| <= count then |first| else count;
      forall i | 0 <= i < n {
        buf[at + i] := first[i];
      }
      assert buf[at..at + n] == first[..n];
      if n < |first| {
        pieces := [first[n..]] + rest;
        assert pieces[1..] == rest;
        assert first == first[..n] + first[n..];
        Reassociate(first[..n], first[n..], Flat(rest));
      } else {
        pieces := rest;
      }
    }
  }

  lemma Reassociate(a: string, b: string, c: string)
    ensures a + (b + c) == (a + b) + c
  {
  }

  datatype DemoResult = DemoOk | DemoEof | DemoError

  /** `copy_plaintext_to_buffer`. Bytes are never lost or reordered: those taken from the
      connection and those still in it make up what there was. Success means all were
      taken, EOF is reported only on a clean close, and room for 1024 more is left. */
  method CopyPlaintext(vec: ByteVec, reader: PlaintextReader) returns (result: DemoResult)
    requires vec.Valid() && reader.Valid()
    modifies vec, vec.data, reader
    ensures vec.Valid() && reader.Valid() && (vec.data == old(vec.data) || fresh(vec.data))
    ensures old(vec.data.Length) <= vec.data.Length
    ensures vec.Contents() + reader.Pending() == old(vec.Contents()) + old(reader.Pending())
    ensures old(vec.Contents()) <= vec.Contents()
    ensures result == DemoOk ==> reader.Pending() == "" && reader.closing == StillOpen
    ensures result == DemoEof ==> reader.Pending() == "" && reader.closing == CleanlyClosed
    ensures result != DemoError ==> vec.Available() >= CHUNK == 1024
    ensures result == DemoError ==>
      || (reader.Pending() == "" && reader.closing == Truncated)
      || (vec.Available() < CHUNK && NewSize(vec.len, vec.data.Length, CHUNK) > vec.limit)
    ensures old(vec.Amortized()) ==> vec.Amortized()
  {
    var ok := vec.EnsureAvailable(CHUNK);
    if !ok {
      return DemoError;
    }
    while true
      invariant vec.Valid() && reader.Valid() && vec.Available() >= CHUNK
      invariant (vec.data == old(vec.data) || fresh(vec.data)) && old(vec.data.Length) <= vec.data.Length
      invariant vec.Contents() + reader.Pending() == old(vec.Contents()) + old(reader.Pending())
      invariant old(vec.Contents()) <= vec.Contents()
      invariant old(vec.Amortized()) ==> vec.Amortized()
      decreases |reader.Pending()|
    {
      var code, n := ReadOnce(vec, reader);
      if code == ResultCodes.PLAINTEXT_EMPTY {
        return DemoOk;
      }
      if code != ResultCodes.OK {
        return DemoError;
      }
      if n == 0 {
        return DemoEof;
      }
      ok := vec.EnsureAvailable(CHUNK);
      if !ok {
        return DemoError;
      }
    }
  }

  lemma Conserved(contents: string, len: nat, pending: string)
    requires len <= |contents|
    ensures contents + pending == contents[..len] + (contents[len..] + pending)
  {
    assert contents == contents[..len] + contents[len..];
    Reassociate(contents[..len], contents[len..], pending);
  }

  /** One read into the free part of the buffer, and the bytes consumed. */
  method ReadOnce(vec: ByteVec, reader: PlaintextReader) returns (code: ResultCodes.Code, n: nat)
    requires vec.Valid() && reader.Valid() && vec.Available() > 0
    modifies vec`len, vec.data, reader
    ensures vec.Valid() && reader.Valid() && vec.len == old(vec.len) + n && (code != ResultCodes.OK ==> n == 0)
    ensures vec.Contents() + reader.Pending() == old(vec.Contents()) + old(reader.Pending())
    ensures old(vec.Contents()) <= vec.Contents()
    ensures old(vec.Amortized()) ==> vec.Amortized()
    ensures code == ResultCodes.OK && n > 0 ==> |reader.Pending()| < |old(reader.Pending())|
    ensures code == ResultCodes.OK && n == 0 ==> reader.Pending() == "" && reader.closing == CleanlyClosed
    ensures code == ResultCodes.PLAINTEXT_EMPTY ==> reader.Pending() == "" && reader.closing == StillOpen
    ensures code == 7000 || code == 7011 || code == 7010
    ensures code == 7010 ==> reader.Pending() == "" && reader.closing == Truncated
  {
    code, n := reader.Read(vec.data, vec.len, vec.Available(), true);
    Conserved(vec.data[..vec.len + n], vec.len, reader.Pending());
    vec.Consume(n);
  }

  /** `body_beginning`: safe to call whenever draining left room (or nothing was ever read). */
  method BodyBeginning(vec: ByteVec) returns (r: Option<nat>)
    requires vec.Valid()
    requires vec.len < |BLANK_LINE| || vec.Available() >= |BLANK_LINE| - 1
    ensures r == match Search(vec.data[..], 0, vec.len, BLANK_LINE) case Some(p) => Some(p + 4) case None => None
  {
    if vec.Available() >= |BLANK_LINE| - 1 {
      SlackSuffices(vec.data[..], 0, vec.len, BLANK_LINE);
    }
    var p := Memmem(vec.data[..], 0, vec.len, BLANK_LINE, '\r');
    r := if p.Some? then Some(p.value + 4) else None;
  }
}
