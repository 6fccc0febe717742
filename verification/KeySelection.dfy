/**
 Two ways to choose a server certificate for a ClientHello: the resolver that is given the
 keys, and the resolver that asks a C callback. The callback sees the client's signature
 schemes as u16 code points (section 4.2.3 of RFC 8446) and gives them back to
 `rustls_client_hello_select_certified_key`, which decodes them again.
 */
module KeySelection {
  import opened Base
  import opened UserdataStack
  import ResultCodes

  type U16 = n: nat | n < 0x1_0000

  datatype Scheme =
    | RsaPkcs1Sha1 | EcdsaSha1Legacy
    | RsaPkcs1Sha256 | EcdsaNistp256Sha256
    | RsaPkcs1Sha384 | EcdsaNistp384Sha384
    | RsaPkcs1Sha512 | EcdsaNistp521Sha512
    | RsaPssSha256 | RsaPssSha384 | RsaPssSha512
    | Ed25519 | Ed448
    | Unknown(code: U16)

  /** `SignatureScheme::get_u16`. */
  function GetU16(s: Scheme): U16 {
    match s
    case RsaPkcs1Sha1 => 0x0201
    case EcdsaSha1Legacy => 0x0203
    case RsaPkcs1Sha256 => 0x0401
    case EcdsaNistp256Sha256 => 0x0403
    case RsaPkcs1Sha384 => 0x0501
    case EcdsaNistp384Sha384 => 0x0503
    case RsaPkcs1Sha512 => 0x0601
    case EcdsaNistp521Sha512 => 0x0603
    case RsaPssSha256 => 0x0804
    case RsaPssSha384 => 0x0805
    case RsaPssSha512 => 0x0806
    case Ed25519 => 0x0807
    case Ed448 => 0x0808
    case Unknown(n) => n
  }

  /** One element of `sigschemes`. */
  function SigScheme(n: U16): Scheme {
    match n
    case 0x0201 => RsaPkcs1Sha1
    case 0x0203 => EcdsaSha1Legacy
    case 0x0401 => RsaPkcs1Sha256
    case 0x0403 => EcdsaNistp256Sha256
    case 0x0501 => RsaPkcs1Sha384
    case 0x0503 => EcdsaNistp384Sha384
    case 0x0601 => RsaPkcs1Sha512
    case 0x0603 => EcdsaNistp521Sha512
    case 0x0804 => RsaPssSha256
    case 0x0805 => RsaPssSha384
    case 0x0806 => RsaPssSha512
    case 0x0807 => Ed25519
    case 0x0808 => Ed448
    case _ => Unknown(n)
  }

  function CodePoints(ss: seq<Scheme>): (ns: seq<U16>)
    ensures |ns| == |ss|
  {
    seq(|ss|, i requires 0 <= i < |ss| => GetU16(ss[i]))
  }

  function SigSchemes(ns: seq<U16>): (ss: seq<Scheme>)
    ensures |ss| == |ns|
  {
    seq(|ns|, i requires 0 <= i < |ns| => SigScheme(ns[i]))
  }

  /** `Unknown` is used for code points without a name only, as rustls decodes them. */
  predicate Canonical(s: Scheme) {
    s.Unknown? ==> s.code !in {
      0x0201, 0x0203, 0x0401, 0x0403, 0x0501, 0x0503, 0x0601, 0x0603,
      0x0804, 0x0805, 0x0806, 0x0807, 0x0808
    }
  }

  /** Decoding then encoding is the identity on every u16; the result is canonical. */
  lemma CodePointSurvives(n: U16)
    ensures GetU16(SigScheme(n)) == n && Canonical(SigScheme(n))
  {
  }

  /** The named code points, as RFC 5246 composes them (section 7.4.1.4.1: a hash, 2 for SHA-1 and 4 to
      6 for SHA-256 to SHA-512, and a signature, 1 for RSA and 3 for ECDSA), and those that RFC 8446
      adds. */
  lemma CodePointTable()
    ensures [GetU16(RsaPkcs1Sha1), GetU16(RsaPkcs1Sha256), GetU16(RsaPkcs1Sha384), GetU16(RsaPkcs1Sha512)]
         == [256 * 2 + 1, 256 * 4 + 1, 256 * 5 + 1, 256 * 6 + 1]
    ensures [GetU16(EcdsaSha1Legacy), GetU16(EcdsaNistp256Sha256), GetU16(EcdsaNistp384Sha384),
             GetU16(EcdsaNistp521Sha512)]
         == [256 * 2 + 3, 256 * 4 + 3, 256 * 5 + 3, 256 * 6 + 3]
    ensures [GetU16(RsaPssSha256), GetU16(RsaPssSha384), GetU16(RsaPssSha512), GetU16(Ed25519), GetU16(Ed448)]
         == [0x0804, 0x0805, 0x0806, 0x0807, 0x0808]
  {
  }

  lemma SchemeSurvives(s: Scheme)
    ensures SigScheme(GetU16(s)) == s <==> Canonical(s)
  {
  }

  /** Encoding then decoding gives a list back iff all its schemes are canonical. */
  lemma SchemesSurvive(ss: seq<Scheme>)
    ensures SigSchemes(CodePoints(ss)) == ss <==> forall i :: 0 <= i < |ss| ==> Canonical(ss[i])
  {
    forall i | 0 <= i < |ss| ensures SigSchemes(CodePoints(ss))[i] == ss[i] <==> Canonical(ss[i]) {
      SchemeSurvives(ss[i]);
    }
    if forall i :: 0 <= i < |ss| ==> Canonical(ss[i]) {
      assert SigSchemes(CodePoints(ss)) == ss;
    }
  }

  // ---- First compatible key ----

  /** `SigningKey::choose_scheme` is rustls's business: any function of the key and the list. */
  type Chooser<!K> = (K, seq<Scheme>) -> Option<Scheme>

  predicate Compatible<K>(choose: Chooser<K>, key: K, schemes: seq<Scheme>) {
    choose(key, schemes).Some?
  }

  /** The earliest compatible key. */
  ghost predicate IsFirst<K>(choose: Chooser<K>, keys: seq<K>, schemes: seq<Scheme>, r: Option<K>) {
    if r.None? then forall i :: 0 <= i < |keys| ==> !Compatible(choose, keys[i], schemes)
    else exists i ::
      && 0 <= i < |keys| && keys[i] == r.value && Compatible(choose, keys[i], schemes)
      && forall j :: 0 <= j < i ==> !Compatible(choose, keys[j], schemes)
  }

  lemma FirstIsUnique<K>(choose: Chooser<K>, keys: seq<K>, schemes: seq<Scheme>, r: Option<K>, q: Option<K>)
    requires IsFirst(choose, keys, schemes, r) && IsFirst(choose, keys, schemes, q)
    ensures r == q
  {
  }

  /** `ResolvesServerCertFromChoices::resolve`, and the client's resolver alike. */
  method ResolveFromChoices<K>(choices: seq<K>, schemes: seq<Scheme>, choose: Chooser<K>) returns (r: Option<K>)
    ensures IsFirst(choose, choices, schemes, r)
    ensures if r.Some? then r.value in choices && choose(r.value, schemes).Some?
            else forall i :: 0 <= i < |choices| ==> choose(choices[i], schemes).None?
  {
    for i := 0 to |choices|
      invariant forall j :: 0 <= j < i ==> !Compatible(choose, choices[j], schemes)
    {
      if choose(choices[i], schemes).Some? {
        return Some(choices[i]);
      }
    }
    return None;
  }

  // ---- Selection through the C API ----

  /** The hello that a callback receives; a NULL data pointer is None. */
  datatype Hello = Hello(sniName: string, signatureSchemes: Option<seq<U16>>)

  datatype Selection<K> = Selection(code: ResultCodes.Code, key: Option<K>)

  /** Scanning an array of key pointers: a NULL before the first match is an error. */
  function Scan<K>(choose: Chooser<K>, ptrs: seq<Option<K>>, schemes: seq<Scheme>): Selection<K> {
    if ptrs == [] then Selection(ResultCodes.NOT_FOUND, None)
    else if ptrs[0].None? then Selection(ResultCodes.NULL_PARAMETER, None)
    else if Compatible(choose, ptrs[0].value, schemes) then Selection(ResultCodes.OK, ptrs[0])
    else Scan(choose, ptrs[1..], schemes)
  }

  function Select<K>(choose: Chooser<K>, hello: Option<Hello>, ptrs: Option<seq<Option<K>>>, hasOut: bool)
    : Selection<K>
  {
    if hello.None? || hello.value.signatureSchemes.None? || !hasOut || ptrs.None?
    then Selection(ResultCodes.NULL_PARAMETER, None)
    else Scan(choose, ptrs.value, SigSchemes(hello.value.signatureSchemes.value))
  }

  /** `rustls_client_hello_select_certified_key`; `key` is what is written to `*out_key`. */
  method SelectCertifiedKey<K>(choose: Chooser<K>, hello: Option<Hello>, ptrs: Option<seq<Option<K>>>, hasOut: bool)
    returns (s: Selection<K>)
    ensures s == Select(choose, hello, ptrs, hasOut)
    ensures hello.None? || hello.value.signatureSchemes.None? || !hasOut || ptrs.None? ==> s == Selection(7002, None)
    ensures s.code == 7000 <==> s.key.Some?
    ensures s.key.Some? ==>
      && ptrs.Some? && s.key in ptrs.value && hello.Some? && hello.value.signatureSchemes.Some?
      && choose(s.key.value, SigSchemes(hello.value.signatureSchemes.value)).Some?
  {
    if hello.None? || hello.value.signatureSchemes.None? || !hasOut || ptrs.None? {
      return Selection(ResultCodes.NULL_PARAMETER, None);
    }
    var schemes := SigSchemes(hello.value.signatureSchemes.value);
    var list := ptrs.value;
    var i := 0;
    while i < |list|
      invariant 0 <= i <= |list|
      invariant Scan(choose, list, schemes) == Scan(choose, list[i..], schemes)
    {
      if list[i].None? {
        return Selection(ResultCodes.NULL_PARAMETER, None);
      }
      if choose(list[i].value, schemes).Some? {
        return Selection(ResultCodes.OK, list[i]);
      }
      assert list[i..][1..] == list[i + 1..];
      i := i + 1;
    }
    return Selection(ResultCodes.NOT_FOUND, None);
  }

  /** The outcome of a scan, by position: it stops at the first pointer that is NULL or
      compatible, and that pointer decides the code. */
  lemma {:induction false} ScanStops<K>(choose: Chooser<K>, ptrs: seq<Option<K>>, schemes: seq<Scheme>, i: nat)
    requires i <= |ptrs|
    requires forall j :: 0 <= j < i ==> ptrs[j].Some? && choose(ptrs[j].value, schemes).None?
    ensures i == |ptrs| ==> Scan(choose, ptrs, schemes) == Selection(7008, None)
    ensures i < |ptrs| && ptrs[i].None? ==> Scan(choose, ptrs, schemes) == Selection(7002, None)
    ensures i < |ptrs| && ptrs[i].Some? && choose(ptrs[i].value, schemes).Some? ==>
      Scan(choose, ptrs, schemes) == Selection(7000, ptrs[i])
  {
    if i == 0 {
    } else {
      ScanStops(choose, ptrs[1..], schemes, i - 1);
    }
  }

  // ---- The callback resolver ----

  type HelloCallback<!K> = (Pointer, Hello) -> Option<K>

  /** A C callback that hands the hello straight to the selection function. */
  function SelectingCallback<K>(choose: Chooser<K>, ptrs: seq<Option<K>>): HelloCallback<K> {
    (u, hello) => Select(choose, Some(hello), Some(ptrs), true).key
  }

  /** `ClientHelloResolver::resolve`: an SNI with a NUL byte or a missing userdata gives None. */
  method ResolveByCallback<K>(t: ThreadLocal, cb: HelloCallback<K>, sni: Option<string>, schemes: seq<Scheme>)
    returns (r: Option<K>)
    requires !t.borrowed
    modifies t`borrowed
    ensures !t.borrowed
    ensures var name := if sni.Some? then sni.value else "";
      r == if '\0' in name || !t.alive || t.stack == [] then None
           else cb(t.stack[|t.stack| - 1].userdata, Hello(name, Some(CodePoints(schemes))))
  {
    var name := if sni.Some? then sni.value else "";
    if '\0' in name {
      return None;
    }
    var hello := Hello(name, Some(CodePoints(schemes)));
    var top := t.Last();
    if top.Err? {
      return None;
    }
    r := cb(top.value.userdata, hello);
  }

  function Pointers<K>(keys: seq<K>): (ptrs: seq<Option<K>>)
    ensures |ptrs| == |keys| && forall i :: 0 <= i < |keys| ==> ptrs[i] == Some(keys[i])
  {
    seq(|keys|, i requires 0 <= i < |keys| => Some(keys[i]))
  }

  /** For NULL-free keys and schemes as rustls decodes them, the callback's choice is the
      direct resolver's choice. */
  lemma CallbackAgrees<K>(choose: Chooser<K>, keys: seq<K>, schemes: seq<Scheme>, u: Pointer, name: string)
    requires forall i :: 0 <= i < |schemes| ==> Canonical(schemes[i])
    ensures var hello := Hello(name, Some(CodePoints(schemes)));
            IsFirst(choose, keys, schemes, SelectingCallback(choose, Pointers(keys))(u, hello))
  {
    SchemesSurvive(schemes);
    var ptrs := Pointers(keys);
    var i := 0;
    while i < |keys| && !Compatible(choose, keys[i], schemes)
      invariant 0 <= i <= |keys|
      invariant forall j :: 0 <= j < i ==> !Compatible(choose, keys[j], schemes)
    {
      i := i + 1;
    }
    ScanStops(choose, ptrs, schemes, i);
  }

  /** With NULLs in the array the choice is the first compatible key among the non-NULL ones
      iff no NULL stands before it (before the end, when there is none). */
  lemma NullsMatter<K>(choose: Chooser<K>, ptrs: seq<Option<K>>, schemes: seq<Scheme>, i: nat)
    requires i <= |ptrs|
    requires forall j :: 0 <= j < i ==> ptrs[j].None? || !Compatible(choose, ptrs[j].value, schemes)
    requires i < |ptrs| ==> ptrs[i].Some? && Compatible(choose, ptrs[i].value, schemes)
    ensures Scan(choose, ptrs, schemes).code == (if i < |ptrs| then ResultCodes.OK else ResultCodes.NOT_FOUND)
       <==> None !in ptrs[..i]
  {
    var j := 0;
    while j < i && ptrs[j].Some?
      invariant 0 <= j <= i && forall k :: 0 <= k < j ==> ptrs[k].Some?
    {
      j := j + 1;
    }
    ScanStops(choose, ptrs, schemes, j);
    assert j < i ==> ptrs[..i][j] == None;
  }

  /** Both resolvers on one hello. They differ iff some key is compatible and the callback is never
      reached: a NUL byte in the SNI, or no userdata on the stack. Neither arises while packets
      are processed: the call has pushed its userdata, and rustls reports DNS names only. */
  method ResolveBothWays<K>(t: ThreadLocal, choose: Chooser<K>, keys: seq<K>, sni: Option<string>, schemes: seq<Scheme>)
    returns (direct: Option<K>, asked: Option<K>)
    requires forall i :: 0 <= i < |schemes| ==> Canonical(schemes[i])
    requires !t.borrowed
    modifies t`borrowed
    ensures IsFirst(choose, keys, schemes, direct)
    ensures asked == direct
       <==> || (forall i :: 0 <= i < |keys| ==> !Compatible(choose, keys[i], schemes))
            || (t.alive && t.stack != [] && (sni.Some? ==> '\0' !in sni.value))
  {
    direct := ResolveFromChoices(keys, schemes, choose);
    asked := ResolveByCallback(t, SelectingCallback(choose, Pointers(keys)), sni, schemes);
    if t.alive && t.stack != [] {
      var name := if sni.Some? then sni.value else "";
      CallbackAgrees(choose, keys, schemes, t.stack[|t.stack| - 1].userdata, name);
      if '\0' !in name {
        FirstIsUnique(choose, keys, schemes, direct, asked);
      }
    }
  }
}
