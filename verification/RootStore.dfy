/** Root certificate stores: all-or-nothing additions, and copies made for verifiers. */
module RootStore {
  import opened Base
  import ResultCodes

  /** A certificate, and whether webpki can parse it. */
  datatype Der = Der(id: nat, parses: bool)

  /** What `rustls_pemfile::certs` makes of a buffer. */
  datatype Pem = Malformed | Certificates(ders: seq<Der>)

  /** One `add_pem` call on a store; a NULL buffer is None. */
  datatype AddCall = AddCall(pem: Option<Pem>, strict: bool)

  function Parsable(ders: seq<Der>): (kept: seq<Der>) {
    if ders == [] then []
    else Parsable(ders[..|ders| - 1]) + (if ders[|ders| - 1].parses then [ders[|ders| - 1]] else [])
  }

  /** Strictness asks for at least one certificate and no unparsable one. */
  predicate Succeeds(c: AddCall) {
    && c.pem.Some? && c.pem.value.Certificates?
    && (c.strict ==> c.pem.value.ders != [] && forall d :: d in c.pem.value.ders ==> d.parses)
  }

  function CodeOf(c: AddCall): ResultCodes.Code {
    if c.pem.None? then ResultCodes.NULL_PARAMETER
    else if Succeeds(c) then ResultCodes.OK
    else ResultCodes.CERTIFICATE_PARSE_ERROR
  }

  /** The certificates that a call contributes. */
  function Added(c: AddCall): seq<Der> {
    if Succeeds(c) then Parsable(c.pem.value.ders) else []
  }

  /** A store that began with `base`, after the first n calls: contributions are appended in order. */
  function Contents(base: seq<Der>, calls: seq<AddCall>, n: nat): seq<Der>
    requires n <= |calls|
  {
    if n == 0 then base else Contents(base, calls, n - 1) + Added(calls[n - 1])
  }

  lemma {:induction false} ParsableKept(ders: seq<Der>)
    ensures |Parsable(ders)| <= |ders|
    ensures forall d :: d in Parsable(ders) <==> d in ders && d.parses
  {
    if ders == [] {
    } else {
      ParsableKept(ders[..|ders| - 1]);
      assert ders == ders[..|ders| - 1] + [ders[|ders| - 1]];
    }
  }

  lemma {:induction false} ParsableAll(ders: seq<Der>)
    ensures |Parsable(ders)| == |ders| <==> forall d :: d in ders ==> d.parses
    ensures (forall d :: d in ders ==> d.parses) ==> Parsable(ders) == ders
  {
    if ders == [] {
    } else {
      var init, last := ders[..|ders| - 1], ders[|ders| - 1];
      ParsableAll(init);
      ParsableKept(init);
      assert ders == init + [last];
      if |Parsable(ders)| == |ders| {
        assert forall d :: d in ders ==> d in init || d == last;
      }
    }
  }

  /** Keeping what parses keeps the order. */
  lemma {:induction false} ParsableAppend(a: seq<Der>, b: seq<Der>)
    ensures Parsable(a + b) == Parsable(a) + Parsable(b)
    decreases b
  {
    if b == [] {
      assert a + b == a;
    } else {
      var init := b[..|b| - 1];
      assert (a + b)[..|a + b| - 1] == a + init;
      ParsableAppend(a, init);
    }
  }

  lemma ParsableOne(d: Der)
    ensures Parsable([d]) == if d.parses then [d] else []
  {
    assert [d][..0] == [];
  }

  lemma {:induction false} ParsableCount(ders: seq<Der>, d: Der)
    ensures multiset(Parsable(ders))[d] == if d.parses then multiset(ders)[d] else 0
  {
    if ders == [] {
    } else {
      var init, last := ders[..|ders| - 1], ders[|ders| - 1];
      ParsableCount(init, d);
      assert ders == init + [last];
    }
  }

  /** What a call contributes: a buffer that is not PEM nothing, a strict call all or nothing (and
      nothing when there is no certificate), any other call each certificate that parses as often
      as it occurs. */
  lemma AddedIs(c: AddCall)
    ensures c.pem.None? || c.pem.value.Malformed? ==> Added(c) == []
    ensures c.pem.Some? && c.pem.value.Certificates? && c.strict ==>
      var ders := c.pem.value.ders;
      Added(c) == if forall d :: d in ders ==> d.parses then ders else []
    ensures c.pem.Some? && c.pem.value.Certificates? && !c.strict ==>
      forall d :: multiset(Added(c))[d] == if d.parses then multiset(c.pem.value.ders)[d] else 0
  {
    if c.pem.Some? && c.pem.value.Certificates? {
      var ders := c.pem.value.ders;
      ParsableAll(ders);
      forall d ensures multiset(Parsable(ders))[d] == if d.parses then multiset(ders)[d] else 0 {
        ParsableCount(ders, d);
      }
    }
  }

  /** A store only grows. */
  lemma {:induction false} ContentsGrow(base: seq<Der>, calls: seq<AddCall>, k: nat, n: nat)
    requires k <= n <= |calls|
    ensures Contents(base, calls, k) <= Contents(base, calls, n) && base <= Contents(base, calls, n)
    decreases n
  {
    if n == 0 {
    } else {
      var before := Contents(base, calls, n - 1);
      ContentsGrow(base, calls, if k == n then n - 1 else k, n - 1);
      PrefixGrows(base, before, Added(calls[n - 1]));
      if k < n {
        PrefixGrows(Contents(base, calls, k), before, Added(calls[n - 1]));
      }
    }
  }

  lemma PrefixGrows(a: seq<Der>, b: seq<Der>, c: seq<Der>)
    requires a <= b
    ensures a <= b + c
  {
  }

  /** The two counts decide a strict addition. */
  lemma StrictTest(c: AddCall, rejected: nat, parsed: nat)
    requires c.pem.Some? && c.pem.value.Certificates?
    requires parsed == |Parsable(c.pem.value.ders)| && parsed + rejected == |c.pem.value.ders|
    ensures Succeeds(c) <==> !(c.strict && (rejected > 0 || parsed == 0))
  {
    ParsableAll(c.pem.value.ders);
  }

  class RootCertStore {
    var roots: seq<Der>

    constructor ()
      ensures roots == []
    {
      roots := [];
    }

    /** `add_parsable_certificates`: counts what it keeps and what it rejects. */
    method AddParsable(ders: seq<Der>) returns (parsed: nat, rejected: nat)
      modifies this
      ensures roots == old(roots) + Parsable(ders)
      ensures parsed == |Parsable(ders)| && parsed + rejected == |ders|
    {
      parsed, rejected := 0, 0;
      var i := 0;
      while i < |ders|
        invariant 0 <= i <= |ders|
        invariant roots == old(roots) + Parsable(ders[..i])
        invariant parsed == |Parsable(ders[..i])| && parsed + rejected == i
      {
        assert ders[..i + 1][..i] == ders[..i];
        if ders[i].parses {
          roots := roots + [ders[i]];
          parsed := parsed + 1;
        } else {
          rejected := rejected + 1;
        }
        i := i + 1;
      }
      assert ders[..i] == ders;
    }

    /** The addition to a store: a temporary one makes it all-or-nothing. */
    method Add(c: AddCall) returns (code: ResultCodes.Code)
      modifies this
      ensures code == CodeOf(c)
      ensures roots == old(roots) + Added(c)
    {
      if c.pem.None? {
        return ResultCodes.NULL_PARAMETER;
      }
      if c.pem.value.Malformed? {
        return ResultCodes.CERTIFICATE_PARSE_ERROR;
      }
      var temporary := new RootCertStore();
      var parsed, rejected := temporary.AddParsable(c.pem.value.ders);
      StrictTest(c, rejected, parsed);
      if c.strict && (rejected > 0 || parsed == 0) {
        return ResultCodes.CERTIFICATE_PARSE_ERROR;
      }
      roots := roots + temporary.roots;
      return ResultCodes.OK;
    }

    /** A verifier or a client builder clones the store. */
    method Snapshot() returns (copy: RootCertStore)
      ensures fresh(copy) && copy.roots == roots
    {
      copy := new RootCertStore();
      copy.roots := roots;
    }

    /** Any run of additions leaves the store as the in-order concatenation of what the successful
        calls contribute, and a copy taken after k calls still has exactly what those contributed. */
    method RunWithCopy(calls: seq<AddCall>, k: nat) returns (copy: RootCertStore)
      requires k <= |calls|
      modifies this
      ensures roots == Contents(old(roots), calls, |calls|)
      ensures fresh(copy) && copy.roots == Contents(old(roots), calls, k)
      ensures old(roots) <= copy.roots <= roots
    {
      ContentsGrow(old(roots), calls, 0, k);
      ContentsGrow(old(roots), calls, k, |calls|);
      AddRange(calls, 0, k, old(roots));
      copy := Snapshot();
      AddRange(calls, k, |calls|, old(roots));
    }

    method AddRange(calls: seq<AddCall>, lo: nat, hi: nat, ghost base: seq<Der>)
      requires lo <= hi <= |calls| && roots == Contents(base, calls, lo)
      modifies this
      ensures roots == Contents(base, calls, hi)
      decreases hi
    {
      if lo < hi {
        AddRange(calls, lo, hi - 1, base);
        var _ := AddPem(this, calls[hi - 1]);
      }
    }
  }

  /** `rustls_root_cert_store_add_pem`: NULL pointers are refused, the buffer's first. */
  method AddPem(store: RootCertStore?, c: AddCall) returns (code: ResultCodes.Code)
    modifies store
    ensures code == if store == null then ResultCodes.NULL_PARAMETER else CodeOf(c)
    ensures store != null ==> store.roots == old(store.roots) + Added(c)
    ensures store == null || c.pem.None? ==> code == 7002
    ensures store != null && c.pem.Some? && c.pem.value.Malformed? ==> code == 7005
    ensures store != null && c.pem.Some? && c.pem.value.Certificates? ==>
      var ders := c.pem.value.ders;
      code == if c.strict && (ders == [] || exists d :: d in ders && !d.parses) then 7005 else 7000
  {
    if c.pem.None? || store == null {
      return ResultCodes.NULL_PARAMETER;
    }
    code := store.Add(c);
  }
}
