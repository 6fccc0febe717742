/**
 The demo client's read loop: after every network read it drains the new plaintext into its
 buffer and, as long as it has no head, looks for one in what has arrived so far. The
 response may be split over the rounds in any way, and within a round into any pieces.
 */
module ClientLoop {
  import opened Base
  import opened ByteSearch
  import opened HttpHeaders
  import opened PlaintextBuffer
  import opened HttpResponse

  /** The plaintext that one network read makes available, the state of the connection then, and
      whether a further read from the socket, made after a clean close only, finds it closed or
      silent. */
  datatype Arrival = Arrival(pieces: seq<string>, closing: Closing, tidy: bool)

  function Total(arrivals: seq<Arrival>): string {
    if arrivals == [] then "" else Total(arrivals[..|arrivals| - 1]) + Flat(arrivals[|arrivals| - 1].pieces)
  }

  lemma {:induction false} TotalGrows(arrivals: seq<Arrival>, i: nat)
    requires i <= |arrivals|
    ensures Total(arrivals[..i]) <= Total(arrivals)
    decreases |arrivals| - i
  {
    if i < |arrivals| {
      TotalGrows(arrivals, i + 1);
      TotalNext(arrivals, i);
    } else {
      assert arrivals[..i] == arrivals;
    }
  }

  lemma TotalNext(arrivals: seq<Arrival>, i: nat)
    requires i < |arrivals|
    ensures Total(arrivals[..i + 1]) == Total(arrivals[..i]) + Flat(arrivals[i].pieces)
  {
    assert arrivals[..i + 1][..i] == arrivals[..i];
  }

  /** The buffer's memory after a round, of which the first `len` bytes have been received. */
  datatype Look = Look(mem: string, len: nat)

  ghost predicate GenuineLook(l: Look, size: nat) {
    l.len <= |l.mem| && l.mem[..l.len] <= Response(size)
  }

  lemma GenuineBytes(l: Look, size: nat)
    requires GenuineLook(l, size)
    ensures Genuine(l.mem, l.len, size)
  {
    forall i | 0 <= i < l.len && i < |Head(size)| ensures l.mem[i] == Head(size)[i] {
      assert l.mem[..l.len][i] == Response(size)[i];
    }
  }

  /** All of the body arrived; clean close; an error; a head without a length; more is expected. */
  datatype Outcome = Complete | Ended | Failed | GaveUp | Waiting

  ghost predicate AllGenuine(looks: seq<Look>, size: nat) {
    forall i :: 0 <= i < |looks| ==> GenuineLook(looks[i], size)
  }

  ghost predicate SpillsWrong(looks: seq<Look>) {
    exists i :: 0 <= i < |looks| && WrongSpill(looks[i].mem, looks[i].len)
  }

  ghost predicate ShowsHead(looks: seq<Look>, size: nat) {
    exists i :: 0 <= i < |looks| && HeadVisible(looks[i].mem, looks[i].len, size)
  }

  /** Once 18 bytes have arrived, genuine ones stand where the wrong blank line would continue. */
  lemma LateNotWrong(l: Look, size: nat)
    requires GenuineLook(l, size) && 18 <= l.len
    ensures !WrongSpill(l.mem, l.len)
  {
    GenuineBytes(l, size);
    HeadBack(size);
    if WrongSpill(l.mem, l.len) {
      OneBlankLine(l.mem, l.len, size, 15);
    }
  }

  /** The looks show, round by round, what had arrived. */
  ghost predicate Follow(looks: seq<Look>, arrivals: seq<Arrival>) {
    && |looks| <= |arrivals|
    && forall i :: 0 <= i < |looks| ==>
         looks[i].len <= |looks[i].mem| && looks[i].mem[..looks[i].len] == Total(arrivals[..i + 1])
  }

  lemma FollowSnoc(looks: seq<Look>, l: Look, arrivals: seq<Arrival>)
    requires Follow(looks, arrivals) && |looks| < |arrivals|
    requires l.len <= |l.mem| && l.mem[..l.len] == Total(arrivals[..|looks| + 1])
    ensures Follow(looks + [l], arrivals)
  {
  }

  /** No round ends after 16 or 17 bytes of the response. */
  ghost predicate SafelySplit(arrivals: seq<Arrival>) {
    forall i :: 0 <= i <= |arrivals| ==> |Total(arrivals[..i])| != 16 && |Total(arrivals[..i])| != 17
  }

  /** Then nothing can go wrong. */
  lemma NoSplitNoSpill(looks: seq<Look>, arrivals: seq<Arrival>, size: nat)
    requires AllGenuine(looks, size) && Follow(looks, arrivals) && SafelySplit(arrivals)
    ensures !SpillsWrong(looks)
  {
    forall i | 0 <= i < |looks| ensures !WrongSpill(looks[i].mem, looks[i].len) {
      assert looks[i].len == |Total(arrivals[..i + 1])|;
      if 18 <= looks[i].len {
        LateNotWrong(looks[i], size);
      }
    }
  }

  lemma SpillAt(len: nat, size: nat)
    requires len == 16 || len == 17
    ensures var l := Look(PREFIX[..16] + "\n\r\n", len); GenuineLook(l, size) && WrongSpill(l.mem, len)
  {
    var mem := PREFIX[..16] + "\n\r\n";
    BlankLineBytes(mem, 15);
    PrefixBreaks(15);
    HeadFront(size);
    HeadBack(size);
    forall i | 0 <= i < len ensures mem[..len][i] == Response(size)[i] {
      assert Response(size)[i] == Head(size)[i] == PREFIX[i];
    }
  }

  /** These two lengths are exactly those at which stale memory can mislead the client. */
  lemma SpillPossibleIff(len: nat, size: nat)
    requires len <= |Response(size)|
    ensures (exists l: Look :: l.len == len && GenuineLook(l, size) && WrongSpill(l.mem, len))
       <==> len == 16 || len == 17
  {
    if len == 16 || len == 17 {
      SpillAt(len, size);
    }
    forall l: Look | l.len == len && GenuineLook(l, size) && WrongSpill(l.mem, len) ensures len == 16 || len == 17 {
      if 18 <= len {
        LateNotWrong(l, size);
      }
    }
  }

  /** The length at which the client stops: `headers_len + content_length`, a size_t. */
  function ReadTo(size: nat): nat {
    (|Head(size)| + size) % SIZE_MODULUS
  }

  ghost predicate HasBody(contents: string, size: nat) {
    && |Head(size)| + size <= |contents|
    && contents[|Head(size)|..|Head(size)| + size] == seq(size, i => 'a')
  }

  lemma BodyBytes(contents: string, size: nat)
    requires contents <= Response(size) && |Head(size)| + size <= |contents|
    ensures HasBody(contents, size)
  {
    var h := |Head(size)|;
    var body := contents[h..h + size];
    forall i | 0 <= i < |body| ensures body[i] == 'a' {
      assert contents[h + i] == Response(size)[h + i];
    }
  }

  lemma LooksSnoc(looks: seq<Look>, l: Look, size: nat)
    requires GenuineLook(l, size)
    ensures SpillsWrong(looks + [l]) <==> SpillsWrong(looks) || WrongSpill(l.mem, l.len)
    ensures ShowsHead(looks + [l], size) <==> ShowsHead(looks, size) || HeadVisible(l.mem, l.len, size)
  {
    var all := looks + [l];
    assert all[|looks|] == l;
    assert forall i :: 0 <= i < |looks| ==> all[i] == looks[i];
  }

  /** The buffer needs to grow, and `realloc` refuses. */
  ghost predicate Refused(vec: ByteVec)
    requires vec.Valid()
    reads vec
  {
    vec.Available() < CHUNK && NewSize(vec.len, vec.data.Length, CHUNK) > vec.limit
  }

  /** The three causes of a failing round. */
  ghost predicate Fails(a: Arrival, vec: ByteVec)
    requires vec.Valid()
    reads vec
  {
    a.closing == Truncated || (a.closing == CleanlyClosed && !a.tidy) || Refused(vec)
  }

  /** One round, `do_read`: drain what arrival `i` made available. */
  method Round(vec: ByteVec, arrivals: seq<Arrival>, i: nat, ghost size: nat) returns (result: DemoResult)
    requires vec.Valid() && i < |arrivals| && "" !in arrivals[i].pieces
    requires vec.Contents() == Total(arrivals[..i]) && Total(arrivals) <= Response(size)
    modifies vec, vec.data
    ensures vec.Valid() && (vec.data == old(vec.data) || fresh(vec.data)) && old(vec.len) <= vec.len
    ensures old(vec.Amortized()) ==> vec.Amortized()
    ensures vec.Contents() <= Response(size)
    ensures result == DemoOk ==> arrivals[i].closing == StillOpen
    ensures result == DemoEof ==> arrivals[i].closing == CleanlyClosed && arrivals[i].tidy
    ensures result == DemoError ==> Fails(arrivals[i], vec)
    ensures result != DemoError ==> vec.Available() >= CHUNK && vec.Contents() == Total(arrivals[..i + 1])
  {
    var reader := new PlaintextReader(arrivals[i].pieces, arrivals[i].closing);
    result := CopyPlaintext(vec, reader);
    TotalNext(arrivals, i);
    TotalGrows(arrivals, i + 1);
    assert vec.Contents() <= vec.Contents() + reader.Pending() == Total(arrivals[..i + 1]);
    assert vec.Contents() + "" == vec.Contents();
    if result == DemoEof && !arrivals[i].tidy {
      result := DemoError;
    }
  }

  /** What the client knows after some looks: both numbers iff one of them showed the head. */
  ghost predicate Learned(looks: seq<Look>, size: nat, head: Option<(nat, nat)>) {
    head == if ShowsHead(looks, size) then Some((|Head(size)|, size)) else None
  }

  /** Look for the head in the buffer, unless it is known already. */
  method Inspect(vec: ByteVec, known: Option<(nat, nat)>, ghost earlier: seq<Look>, ghost arrivals: seq<Arrival>,
                 ghost size: nat)
    returns (bad: bool, head: Option<(nat, nat)>, ghost looks: seq<Look>)
    requires vec.Valid() && vec.Available() >= CHUNK && size <= ULONG_MAX
    requires vec.Contents() <= Response(size)
    requires Follow(earlier, arrivals) && |earlier| < |arrivals| && vec.Contents() == Total(arrivals[..|earlier| + 1])
    requires AllGenuine(earlier, size) && !SpillsWrong(earlier) && Learned(earlier, size, known)
    requires known.Some? ==> |Head(size)| - 3 <= vec.len
    ensures looks == earlier + [Look(vec.data[..], vec.len)] && Follow(looks, arrivals)
    ensures AllGenuine(looks, size) && (bad <==> SpillsWrong(looks)) && Learned(looks, size, head)
    ensures head.Some? ==> |Head(size)| - 3 <= vec.len
    ensures |Head(size)| <= vec.len ==> head.Some?
  {
    ghost var look := Look(vec.data[..], vec.len);
    assert look.mem[..look.len] == vec.Contents();
    LooksSnoc(earlier, look, size);
    FollowSnoc(earlier, look, arrivals);
    bad, head, looks := false, known, earlier + [look];
    if known.None? {
      var r := ReadHead(vec);
      GenuineBytes(look, size);
      LookAtGenuine(look.mem, look.len, size, r);
      bad := r.BadHead?;
      if r.GoodHead? {
        head := Some((r.headersLen, r.contentLength));
      }
    }
    HeadBack(size);
    if |Head(size)| - 3 <= look.len {
      LateNotWrong(look, size);
    }
  }

  /** Has the whole body arrived? */
  method HasAll(vec: ByteVec, head: Option<(nat, nat)>, ghost size: nat) returns (done: bool)
    requires vec.Valid() && vec.Contents() <= Response(size)
    requires head.Some? ==> head.value == (|Head(size)|, size)
    ensures done <==> head.Some? && ReadTo(size) <= vec.len
    ensures done && |Head(size)| + size < SIZE_MODULUS ==> HasBody(vec.Contents(), size)
    ensures head.Some? && vec.Contents() == Response(size) ==> done
  {
    done := head.Some? && vec.len >= (head.value.0 + head.value.1) % SIZE_MODULUS;
    if done && |Head(size)| + size < SIZE_MODULUS {
      BodyBytes(vec.Contents(), size);
    }
  }

  /** All these rounds went on. */
  ghost predicate AllOpen(arrivals: seq<Arrival>) {
    forall i :: 0 <= i < |arrivals| ==> arrivals[i].closing == StillOpen
  }

  /** The looks are what the rounds left in the buffer, and each round went on. */
  ghost predicate Traced(looks: seq<Look>, arrivals: seq<Arrival>, size: nat) {
    AllGenuine(looks, size) && Follow(looks, arrivals) && AllOpen(arrivals[..|looks|])
  }

  /** After some look the head was known and all of the body had arrived, as far as size_t can count. */
  ghost predicate Finished(looks: seq<Look>, size: nat) {
    exists i :: 0 <= i < |looks| && FinishedAt(looks, i, size)
  }

  ghost predicate FinishedAt(looks: seq<Look>, i: nat, size: nat)
    requires i < |looks|
  {
    ReadTo(size) <= looks[i].len && ShowsHead(looks[..i + 1], size)
  }

  lemma FinishedSnoc(looks: seq<Look>, l: Look, size: nat)
    ensures Finished(looks + [l], size)
       <==> Finished(looks, size) || (ReadTo(size) <= l.len && ShowsHead(looks + [l], size))
  {
    var all := looks + [l];
    forall i | 0 <= i < |looks| ensures FinishedAt(all, i, size) == FinishedAt(looks, i, size) {
      assert all[..i + 1] == looks[..i + 1];
    }
    assert all[..|looks| + 1] == all;
    assert FinishedAt(all, |looks|, size) <==> ReadTo(size) <= l.len && ShowsHead(all, size);
  }

  /** Nothing decided the outcome yet. */
  ghost predicate Undecided(looks: seq<Look>, size: nat) {
    !SpillsWrong(looks) && !Finished(looks, size)
  }

  /** The last look was at the buffer as it is now, and no earlier one decided the outcome. */
  ghost predicate LookedAt(looks: seq<Look>, size: nat, mem: string, len: nat) {
    looks != [] && looks[|looks| - 1] == Look(mem, len) && Undecided(looks[..|looks| - 1], size)
  }

  /** The loop goes on: nothing went wrong, and the body is not complete. */
  ghost predicate Running(looks: seq<Look>, head: Option<(nat, nat)>, arrivals: seq<Arrival>, size: nat, vec: ByteVec)
    requires vec.Valid()
    reads vec, vec.data
  {
    && Traced(looks, arrivals, size) && vec.Contents() == Total(arrivals[..|looks|])
    && Undecided(looks, size) && (looks == [] || LookedAt(looks, size, vec.data[..], vec.len))
    && (head.Some? ==> |Head(size)| - 3 <= vec.len && vec.Contents() != Response(size))
    && (looks != [] && |Head(size)| <= vec.len ==> head.Some?)
  }

  /** Why the loop stopped. */
  ghost predicate Justified(outcome: Outcome, looks: seq<Look>, head: Option<(nat, nat)>, arrivals: seq<Arrival>,
                            size: nat, vec: ByteVec)
    requires vec.Valid()
    reads vec, vec.data
  {
    match outcome
    case Failed => |looks| < |arrivals| && Fails(arrivals[|looks|], vec) && Undecided(looks, size)
    case Ended =>
      && |looks| < |arrivals| && arrivals[|looks|].closing == CleanlyClosed && arrivals[|looks|].tidy
      && vec.Contents() == Total(arrivals[..|looks| + 1]) && vec.Available() >= CHUNK && Undecided(looks, size)
    case GaveUp => LookedAt(looks, size, vec.data[..], vec.len) && WrongSpill(vec.data[..], vec.len)
    case Complete =>
      && LookedAt(looks, size, vec.data[..], vec.len) && !SpillsWrong(looks)
      && head.Some? && Finished(looks, size) && vec.Available() >= CHUNK
      && (|Head(size)| + size < SIZE_MODULUS ==> HasBody(vec.Contents(), size))
    case Waiting => |looks| == |arrivals| && Running(looks, head, arrivals, size, vec)
  }

  /** After a round that went on: look for the head, and see whether the body is complete. */
  method Judge(vec: ByteVec, arrivals: seq<Arrival>, known: Option<(nat, nat)>, ghost earlier: seq<Look>,
               ghost size: nat)
    returns (outcome: Outcome, head: Option<(nat, nat)>, ghost looks: seq<Look>)
    requires vec.Valid() && vec.Available() >= CHUNK && vec.Contents() <= Response(size) && size <= ULONG_MAX
    requires Traced(earlier, arrivals, size) && Undecided(earlier, size) && Learned(earlier, size, known)
    requires |earlier| < |arrivals| && arrivals[|earlier|].closing == StillOpen
    requires vec.Contents() == Total(arrivals[..|earlier| + 1]) && (known.Some? ==> |Head(size)| - 3 <= vec.len)
    ensures |looks| == |earlier| + 1 && Traced(looks, arrivals, size) && Learned(looks, size, head)
    ensures outcome == GaveUp || outcome == Complete || outcome == Waiting
    ensures outcome != Waiting ==> Justified(outcome, looks, head, arrivals, size, vec)
    ensures outcome == Waiting ==> Running(looks, head, arrivals, size, vec)
  {
    ghost var look := Look(vec.data[..], vec.len);
    var bad;
    bad, head, looks := Inspect(vec, known, earlier, arrivals, size);
    assert looks[..|earlier|] == earlier && looks[|earlier|] == look;
    assert LookedAt(looks, size, look.mem, look.len);
    OpenSnoc(arrivals, |earlier|);
    FinishedSnoc(earlier, look, size);
    if bad {
      assert vec.Contents() == look.mem[..look.len];
      LooksSnoc(earlier, look, size);
      return GaveUp, head, looks;
    }
    var done := HasAll(vec, head, size);
    outcome := if done then Complete else Waiting;
  }

  lemma OpenSnoc(arrivals: seq<Arrival>, i: nat)
    requires i < |arrivals| && AllOpen(arrivals[..i]) && arrivals[i].closing == StillOpen
    ensures AllOpen(arrivals[..i + 1])
  {
    assert forall k :: 0 <= k < i ==> arrivals[..i][k] == arrivals[k];
  }

  /** One turn of the loop. */
  method Turn(vec: ByteVec, arrivals: seq<Arrival>, i: nat, known: Option<(nat, nat)>, ghost earlier: seq<Look>,
              ghost size: nat)
    returns (outcome: Outcome, head: Option<(nat, nat)>, ghost looks: seq<Look>)
    requires vec.Valid() && |earlier| == i < |arrivals| && "" !in arrivals[i].pieces && size <= ULONG_MAX
    requires Total(arrivals) <= Response(size)
    requires Running(earlier, known, arrivals, size, vec) && Learned(earlier, size, known)
    modifies vec, vec.data
    ensures vec.Valid() && (vec.data == old(vec.data) || fresh(vec.data)) && vec.Contents() <= Response(size)
    ensures old(vec.Amortized()) ==> vec.Amortized()
    ensures Traced(looks, arrivals, size) && Learned(looks, size, head)
    ensures outcome != Waiting ==> Justified(outcome, looks, head, arrivals, size, vec)
    ensures outcome == Waiting ==> |looks| == i + 1 && Running(looks, head, arrivals, size, vec)
  {
    head, looks := known, earlier;
    var result := Round(vec, arrivals, i, size);
    if result == DemoError {
      return Failed, head, looks;
    }
    if result == DemoEof {
      return Ended, head, looks;
    }
    outcome, head, looks := Judge(vec, arrivals, known, earlier, size);
  }

  /** The loop. `looks` are the buffers after each round that went on. */
  method ReceiveResponse(vec: ByteVec, arrivals: seq<Arrival>, ghost size: nat)
    returns (outcome: Outcome, head: Option<(nat, nat)>, ghost looks: seq<Look>)
    requires vec.Valid() && vec.Contents() == "" && size <= ULONG_MAX
    requires forall i :: 0 <= i < |arrivals| ==> "" !in arrivals[i].pieces
    requires Total(arrivals) <= Response(size)
    modifies vec, vec.data
    ensures vec.Valid() && (vec.data == old(vec.data) || fresh(vec.data)) && vec.Contents() <= Response(size)
    ensures old(vec.Amortized()) ==> vec.Amortized()
    ensures Traced(looks, arrivals, size) && Justified(outcome, looks, head, arrivals, size, vec)
    // it learns both numbers exactly when a look shows the head
    ensures Learned(looks, size, head)
    // it gives up exactly when a look spills to the wrong place, and completes when the body is there
    ensures outcome == GaveUp <==> SpillsWrong(looks)
    ensures outcome == Complete <==> Finished(looks, size) && !SpillsWrong(looks)
    // a whole response that meets no error or close is received iff no look spills to the wrong place
    ensures Total(arrivals) == Response(size) && outcome != Failed && outcome != Ended ==>
      (outcome == Complete <==> !SpillsWrong(looks))
  {
    head, looks, outcome := None, [], Waiting;
    var i := 0;
    while i < |arrivals|
      invariant 0 <= i <= |arrivals| && vec.Valid() && |looks| == i
      invariant vec.data == old(vec.data) || fresh(vec.data)
      invariant old(vec.Amortized()) ==> vec.Amortized()
      invariant vec.Contents() <= Response(size) && outcome == Waiting
      invariant Running(looks, head, arrivals, size, vec) && Learned(looks, size, head)
    {
      outcome, head, looks := Turn(vec, arrivals, i, head, looks, size);
      if outcome != Waiting {
        OutcomeIff(outcome, looks, head, arrivals, size, vec);
        return;
      }
      i := i + 1;
    }
    OutcomeIff(outcome, looks, head, arrivals, size, vec);
  }

  lemma OutcomeIff(outcome: Outcome, looks: seq<Look>, head: Option<(nat, nat)>, arrivals: seq<Arrival>, size: nat,
                  vec: ByteVec)
    requires vec.Valid() && Justified(outcome, looks, head, arrivals, size, vec)
    ensures outcome == GaveUp <==> SpillsWrong(looks)
    ensures outcome == Complete <==> Finished(looks, size) && !SpillsWrong(looks)
    ensures Total(arrivals) == Response(size) && outcome != Failed && outcome != Ended ==>
      (outcome == Complete <==> !SpillsWrong(looks))
  {
    if outcome == GaveUp {
      assert WrongSpill(looks[|looks| - 1].mem, looks[|looks| - 1].len);
    }
    if outcome == Waiting {
      assert arrivals[..|looks|] == arrivals;
      HeadBack(size);
    }
  }

  // ---- The whole exchange ----

  /** The drain after the loop: nothing is left to drain, so it changes nothing and cannot fail. */
  method FinalDrain(vec: ByteVec, closing: Closing) returns (result: DemoResult)
    requires vec.Valid() && vec.Available() >= CHUNK && closing != Truncated
    modifies vec, vec.data
    ensures vec.Valid() && vec.Contents() == old(vec.Contents()) && result != DemoError
  {
    var reader := new PlaintextReader([], closing);
    ghost var before := vec.Contents();
    result := CopyPlaintext(vec, reader);
    assert before + "" == before;
    assert vec.Contents() == before;
  }

  /** No arrival is cut off, and only the last may close the connection. */
  ghost predicate Smooth(arrivals: seq<Arrival>) {
    forall i :: 0 <= i < |arrivals| ==>
      || arrivals[i].closing == StillOpen
      || (i == |arrivals| - 1 && arrivals[i].closing == CleanlyClosed && arrivals[i].tidy)
  }

  /** A limit of twice the response and a chunk is enough for the buffer. */
  lemma RoomEnough(vec: ByteVec, size: nat)
    requires vec.Valid() && vec.len <= |Response(size)| && 2 * (|Response(size)| + CHUNK) <= vec.limit
    ensures !Refused(vec)
  {
    if vec.Available() < CHUNK {
      NewSizeExact(vec.len, vec.data.Length, CHUNK);
    }
  }

  /** Conditions that can be checked beforehand and exclude every cause of trouble. */
  lemma SmoothSucceeds(outcome: Outcome, looks: seq<Look>, head: Option<(nat, nat)>, arrivals: seq<Arrival>,
                       size: nat, vec: ByteVec)
    requires vec.Valid() && vec.Contents() <= Response(size)
    requires Traced(looks, arrivals, size) && Justified(outcome, looks, head, arrivals, size, vec)
    requires Total(arrivals) == Response(size) && Smooth(arrivals) && SafelySplit(arrivals)
    requires 2 * (|Response(size)| + CHUNK) <= vec.limit
    ensures outcome == Complete || outcome == Ended
    ensures HasBody(vec.Contents(), size)
  {
    OutcomeIff(outcome, looks, head, arrivals, size, vec);
    NoSplitNoSpill(looks, arrivals, size);
    RoomEnough(vec, size);
    if outcome == Ended {
      assert arrivals[..|looks| + 1] == arrivals;
      BodyBytes(vec.Contents(), size);
    }
  }

  /** The client from the first read to its output. It prints the buffer iff the loop completes or
      the server closes the connection cleanly. A response that arrives smoothly, without
      a round that ends after 16 or 17 bytes, and for which there is room, is printed with all of its body. */
  method RunClient(vec: ByteVec, arrivals: seq<Arrival>, ghost size: nat)
    returns (outcome: Outcome, printed: Option<string>, ghost looks: seq<Look>)
    requires vec.Valid() && vec.Contents() == "" && size <= ULONG_MAX
    requires forall i :: 0 <= i < |arrivals| ==> "" !in arrivals[i].pieces
    requires Total(arrivals) <= Response(size)
    modifies vec, vec.data
    ensures Traced(looks, arrivals, size)
    ensures outcome == GaveUp <==> SpillsWrong(looks)
    ensures outcome == Complete <==> Finished(looks, size) && !SpillsWrong(looks)
    ensures outcome == Failed ==> |looks| < |arrivals| && vec.Valid() && Fails(arrivals[|looks|], vec)
    ensures printed.Some? <==> outcome == Complete || outcome == Ended
    ensures outcome == Complete ==> printed.value == Total(arrivals[..|looks|])
    ensures outcome == Ended ==>
      && |looks| < |arrivals| && arrivals[|looks|].closing == CleanlyClosed
      && printed.value == Total(arrivals[..|looks| + 1])
    ensures
      && Total(arrivals) == Response(size) && Smooth(arrivals) && SafelySplit(arrivals)
      && 2 * (|Response(size)| + CHUNK) <= vec.limit
      ==> printed.Some? && HasBody(printed.value, size)
  {
    var head;
    outcome, head, looks := ReceiveResponse(vec, arrivals, size);
    LookedAtTotal(outcome, looks, head, arrivals, size, vec);
    if Total(arrivals) == Response(size) && Smooth(arrivals) && SafelySplit(arrivals)
       && 2 * (|Response(size)| + CHUNK) <= vec.limit {
      SmoothSucceeds(outcome, looks, head, arrivals, size, vec);
    }
    printed := None;
    if outcome == Complete || outcome == Ended {
      var _ := FinalDrain(vec, if outcome == Ended then CleanlyClosed else StillOpen);
      printed := Some(vec.data[..vec.len]);
    }
  }

  lemma LookedAtTotal(outcome: Outcome, looks: seq<Look>, head: Option<(nat, nat)>, arrivals: seq<Arrival>,
                      size: nat, vec: ByteVec)
    requires vec.Valid() && Traced(looks, arrivals, size) && Justified(outcome, looks, head, arrivals, size, vec)
    ensures outcome == Complete ==> vec.Contents() == Total(arrivals[..|looks|])
  {
    if outcome == Complete {
      var n := |looks| - 1;
      assert vec.Contents() == looks[n].mem[..looks[n].len] == Total(arrivals[..n + 1]);
    }
  }
}
