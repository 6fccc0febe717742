/**
 Client and server config builders as state machines: setters succeed entirely or change
 nothing, and building copies the fields. The law is "last successful write wins".
 */
module ConfigBuilders {
  import opened Base
  import opened RootStore
  import ResultCodes

  type Bytes = seq<nat>
  type Callback = nat
  type KeyId = nat
  type Code = ResultCodes.Code

  // ---- Last write wins, for any kind of call ----

  /** The value of the last call that writes (as `write` says), or the initial one. */
  function LastWrite<C, W>(calls: seq<C>, write: C -> Option<W>, initial: W): W {
    if calls == [] then initial
    else match write(calls[|calls| - 1])
         case Some(w) => w
         case None => LastWrite(calls[..|calls| - 1], write, initial)
  }

  function Or<W>(o: Option<W>, otherwise: W): W {
    match o
    case Some(w) => w
    case None => otherwise
  }

  lemma LastWriteSnoc<C, W>(calls: seq<C>, write: C -> Option<W>, initial: W, i: nat)
    requires i < |calls|
    ensures LastWrite(calls[..i + 1], write, initial) == Or(write(calls[i]), LastWrite(calls[..i], write, initial))
  {
    assert calls[..i + 1][..i] == calls[..i];
  }

  /** By position: the value is that of call i when i writes and nothing after it does. */
  lemma {:induction false} LastWriteAt<C, W>(calls: seq<C>, write: C -> Option<W>, initial: W, i: int)
    requires -1 <= i < |calls|
    requires forall j :: i < j < |calls| ==> write(calls[j]).None?
    requires 0 <= i ==> write(calls[i]).Some?
    ensures LastWrite(calls, write, initial) == if i < 0 then initial else write(calls[i]).value
  {
    if i == |calls| - 1 {
    } else {
      LastWriteAt(calls[..|calls| - 1], write, initial, i);
    }
  }

  /** A C array of byte slices, each with a nullable data pointer, copied element by element. */
  method CopyAll<T>(slices: seq<Option<T>>) returns (copy: Option<seq<T>>)
    ensures copy.Some? <==> None !in slices
    ensures copy.Some? ==>
      |copy.value| == |slices| && forall i :: 0 <= i < |slices| ==> slices[i] == Some(copy.value[i])
  {
    var out := [];
    for i := 0 to |slices|
      invariant |out| == i && forall j :: 0 <= j < i ==> slices[j] == Some(out[j])
    {
      if slices[i].None? {
        return None;
      }
      out := out + [slices[i].value];
    }
    return Some(out);
  }

  /** The copy of a NULL-free array. */
  function Whole<T(==)>(slices: Option<seq<Option<T>>>): Option<seq<T>> {
    if slices.None? || None in slices.value then None
    else Some(seq(|slices.value|, i requires 0 <= i < |slices.value| => Unwrapped(slices.value, i)))
  }

  function Unwrapped<T>(slices: seq<Option<T>>, i: nat): T
    requires None !in slices && i < |slices|
  {
    assert slices[i] in slices;
    slices[i].value
  }

  /** No element is NULL. */
  predicate NoNull<T>(slices: seq<Option<T>>) {
    forall i :: 0 <= i < |slices| ==> slices[i].Some?
  }

  /** The same elements, in order. */
  ghost predicate Copied<T>(copy: seq<T>, slices: seq<Option<T>>) {
    |copy| == |slices| && forall i :: 0 <= i < |slices| ==> slices[i] == Some(copy[i])
  }

  lemma WholeCopies<T>(slices: Option<seq<Option<T>>>)
    ensures Whole(slices).Some? <==> slices.Some? && NoNull(slices.value)
    ensures Whole(slices).Some? ==> Copied(Whole(slices).value, slices.value)
  {
    if slices.Some? && None in slices.value {
      var i :| 0 <= i < |slices.value| && slices.value[i] == None;
    }
  }

  /** `try_slice!` on the array, then the copy loop. */
  method CopyArray<T(==)>(slices: Option<seq<Option<T>>>) returns (copy: Option<seq<T>>)
    ensures copy == Whole(slices)
  {
    if slices.None? {
      return None;
    }
    copy := CopyAll(slices.value);
    if copy.Some? {
      assert copy.value == Whole(slices).value;
    }
  }

  // ---- Client ----

  datatype ServerVerifier = RejectAll | VerifyCallback(cb: Callback) | WebPki(roots: seq<Der>)

  datatype ClientSettings = ClientSettings(
    verifier: ServerVerifier, resolver: Option<seq<KeyId>>, alpn: seq<Bytes>, enableSni: bool)

  /** Reading a roots file: NULL name is None at the call. */
  datatype RootsFile = Unreadable | Readable(pem: Pem)

  datatype ClientCall =
    | DangerousSetVerifier(callback: Option<Callback>)
    | UseRoots(roots: Option<seq<Der>>)
    | LoadRootsFromFile(file: Option<RootsFile>)
    | SetAlpn(protocols: Option<seq<Option<Bytes>>>)
    | SetEnableSni(enable: bool)
    | SetCertifiedKey(keys: Option<seq<Option<KeyId>>>)

  const CLIENT_DEFAULTS := ClientSettings(RejectAll, None, [], true)

  /** The roots of a file in which every certificate parses. */
  function CleanRoots(file: Option<RootsFile>): Option<seq<Der>> {
    if file.Some? && file.value.Readable? && file.value.pem.Certificates?
       && forall d :: d in file.value.pem.ders ==> d.parses
    then Some(file.value.pem.ders) else None
  }

  function LoadError(file: Option<RootsFile>): Code {
    if file.None? then ResultCodes.NULL_PARAMETER
    else if file.value.Readable? && file.value.pem.Certificates? then ResultCodes.CERTIFICATE_PARSE_ERROR
    else ResultCodes.IO
  }

  method LoadRoots(file: Option<RootsFile>) returns (error: Code, roots: Option<seq<Der>>)
    ensures roots == CleanRoots(file)
    ensures roots.None? ==> error == LoadError(file)
  {
    if file.None? {
      return ResultCodes.NULL_PARAMETER, None;
    }
    if file.value.Unreadable? || file.value.pem.Malformed? {
      return ResultCodes.IO, None;
    }
    var store := new RootCertStore();
    var _, failed := store.AddParsable(file.value.pem.ders);
    ParsableAll(file.value.pem.ders);
    if failed > 0 {
      return ResultCodes.CERTIFICATE_PARSE_ERROR, None;
    }
    assert store.roots == file.value.pem.ders;
    return ResultCodes.OK, Some(store.roots);
  }

  function VerifierWrite(): ClientCall -> Option<ServerVerifier> {
    (c: ClientCall) =>
      match c
      case DangerousSetVerifier(Some(cb)) => Some(VerifyCallback(cb))
      case UseRoots(Some(roots)) => Some(WebPki(roots))
      case LoadRootsFromFile(f) => (match CleanRoots(f) case Some(ders) => Some(WebPki(ders)) case None => None)
      case _ => None
  }

  function ResolverWrite(): ClientCall -> Option<Option<seq<KeyId>>> {
    (c: ClientCall) =>
      match c
      case SetCertifiedKey(keys) => (match Whole(keys) case Some(ks) => Some(Some(ks)) case None => None)
      case _ => None
  }

  function AlpnWrite(): ClientCall -> Option<seq<Bytes>> {
    (c: ClientCall) => match c case SetAlpn(ps) => Whole(ps) case _ => None
  }

  function SniWrite(): ClientCall -> Option<bool> {
    (c: ClientCall) => match c case SetEnableSni(b) => Some(b) case _ => None
  }

  /** The settings after a run: each field has its last successful write. */
  function ClientAfter(s: ClientSettings, calls: seq<ClientCall>): ClientSettings {
    ClientSettings(LastWrite(calls, VerifierWrite(), s.verifier), LastWrite(calls, ResolverWrite(), s.resolver),
                   LastWrite(calls, AlpnWrite(), s.alpn), LastWrite(calls, SniWrite(), s.enableSni))
  }

  /** One call: the fields it writes, the others kept. */
  function ClientStep(s: ClientSettings, c: ClientCall): ClientSettings {
    ClientSettings(Or(VerifierWrite()(c), s.verifier), Or(ResolverWrite()(c), s.resolver),
                   Or(AlpnWrite()(c), s.alpn), Or(SniWrite()(c), s.enableSni))
  }

  lemma ClientAfterSnoc(s: ClientSettings, calls: seq<ClientCall>, i: nat)
    requires i < |calls|
    ensures ClientAfter(s, calls[..i + 1]) == ClientStep(ClientAfter(s, calls[..i]), calls[i])
  {
    LastWriteSnoc(calls, VerifierWrite(), s.verifier, i);
    LastWriteSnoc(calls, ResolverWrite(), s.resolver, i);
    LastWriteSnoc(calls, AlpnWrite(), s.alpn, i);
    LastWriteSnoc(calls, SniWrite(), s.enableSni, i);
  }

  predicate ClientSucceeds(c: ClientCall) {
    || VerifierWrite()(c).Some? || ResolverWrite()(c).Some?
    || AlpnWrite()(c).Some? || SniWrite()(c).Some?
  }

  /** Every certificate in a readable file parses. */
  ghost predicate CleanFile(file: RootsFile) {
    file.Readable? && file.pem.Certificates? && forall d :: d in file.pem.ders ==> d.parses
  }

  /** The call sets the verifier, the ALPN protocols or the keys. */
  ghost predicate SetsServerVerifier(c: ClientCall) {
    || (c.DangerousSetVerifier? && c.callback.Some?)
    || (c.UseRoots? && c.roots.Some?)
    || (c.LoadRootsFromFile? && c.file.Some? && CleanFile(c.file.value))
  }

  predicate SetsAlpn(c: ClientCall) {
    c.SetAlpn? && c.protocols.Some? && NoNull(c.protocols.value)
  }

  predicate SetsKeys(c: ClientCall) {
    c.SetCertifiedKey? && c.keys.Some? && NoNull(c.keys.value)
  }

  /** The result code of a setter. */
  ghost predicate ClientCode(c: ClientCall, code: Code) {
    match c
    case DangerousSetVerifier(cb) => code == if cb.Some? then 7000 else 7009
    case UseRoots(roots) => code == if roots.Some? then 7000 else 7002
    case LoadRootsFromFile(None) => code == 7002
    case LoadRootsFromFile(Some(Unreadable)) => code == 7001
    case LoadRootsFromFile(Some(Readable(Malformed))) => code == 7001
    case LoadRootsFromFile(Some(Readable(Certificates(ders)))) =>
      code == if forall d :: d in ders ==> d.parses then 7000 else 7005
    case SetAlpn(_) => code == if SetsAlpn(c) then 7000 else 7002
    case SetEnableSni(_) => code == 7000
    case SetCertifiedKey(_) => code == if SetsKeys(c) then 7000 else 7002
  }

  /** Which calls write which field, and what. */
  lemma ClientWrites(c: ClientCall)
    ensures VerifierWrite()(c).Some? <==> SetsServerVerifier(c)
    ensures ResolverWrite()(c).Some? <==> SetsKeys(c)
    ensures AlpnWrite()(c).Some? <==> SetsAlpn(c)
    ensures SniWrite()(c).Some? <==> c.SetEnableSni?
    ensures SetsKeys(c) ==>
      ResolverWrite()(c).value.Some? && Copied(ResolverWrite()(c).value.value, c.keys.value)
    ensures SetsAlpn(c) ==> Copied(AlpnWrite()(c).value, c.protocols.value)
  {
    match c {
      case SetAlpn(ps) => WholeCopies(ps);
      case SetCertifiedKey(ks) => WholeCopies(ks);
      case _ =>
    }
  }

  /** The verifier of a client is that of the last call that set one, and rejects everything when
      no call did. */
  lemma ClientVerifierIs(calls: seq<ClientCall>, i: int)
    requires -1 <= i < |calls| && (0 <= i ==> SetsServerVerifier(calls[i]))
    requires forall j :: i < j < |calls| ==> !SetsServerVerifier(calls[j])
    ensures ClientAfter(CLIENT_DEFAULTS, calls).verifier
         == if i < 0 then RejectAll
            else match calls[i]
                 case DangerousSetVerifier(cb) => VerifyCallback(cb.value)
                 case UseRoots(roots) => WebPki(roots.value)
                 case LoadRootsFromFile(f) => WebPki(f.value.pem.ders)
                 case _ => RejectAll
  {
    forall j | 0 <= j < |calls| ensures VerifierWrite()(calls[j]).Some? <==> SetsServerVerifier(calls[j]) {
      ClientWrites(calls[j]);
    }
    LastWriteAt(calls, VerifierWrite(), RejectAll, i);
  }

  /** The keys, the protocols and SNI alike; at first there are none, and SNI is enabled. */
  lemma ClientKeysAre(calls: seq<ClientCall>, i: int)
    requires -1 <= i < |calls| && (0 <= i ==> SetsKeys(calls[i]))
    requires forall j :: i < j < |calls| ==> !SetsKeys(calls[j])
    ensures var r := ClientAfter(CLIENT_DEFAULTS, calls).resolver;
      if i < 0 then r == None else r.Some? && Copied(r.value, calls[i].keys.value)
  {
    forall j | 0 <= j < |calls| ensures ResolverWrite()(calls[j]).Some? <==> SetsKeys(calls[j]) {
      ClientWrites(calls[j]);
    }
    if 0 <= i {
      ClientWrites(calls[i]);
    }
    LastWriteAt(calls, ResolverWrite(), None, i);
  }

  lemma ClientAlpnIs(calls: seq<ClientCall>, i: int)
    requires -1 <= i < |calls| && (0 <= i ==> SetsAlpn(calls[i]))
    requires forall j :: i < j < |calls| ==> !SetsAlpn(calls[j])
    ensures var protocols := ClientAfter(CLIENT_DEFAULTS, calls).alpn;
      if i < 0 then protocols == [] else Copied(protocols, calls[i].protocols.value)
  {
    forall j | 0 <= j < |calls| ensures AlpnWrite()(calls[j]).Some? <==> SetsAlpn(calls[j]) {
      ClientWrites(calls[j]);
    }
    if 0 <= i {
      ClientWrites(calls[i]);
    }
    LastWriteAt(calls, AlpnWrite(), [], i);
  }

  lemma ClientSniIs(calls: seq<ClientCall>, i: int)
    requires -1 <= i < |calls| && (0 <= i ==> calls[i].SetEnableSni?)
    requires forall j :: i < j < |calls| ==> !calls[j].SetEnableSni?
    ensures ClientAfter(CLIENT_DEFAULTS, calls).enableSni == if i < 0 then true else calls[i].enable
  {
    LastWriteAt(calls, SniWrite(), true, i);
  }

  class ClientConfigBuilder {
    var settings: ClientSettings

    constructor ()
      ensures settings == CLIENT_DEFAULTS
    {
      settings := CLIENT_DEFAULTS;
    }

    method Call(c: ClientCall) returns (code: Code)
      modifies this
      ensures code == ResultCodes.OK <==> ClientSucceeds(c)
      ensures code != ResultCodes.OK ==> settings == old(settings)
      ensures settings == ClientStep(old(settings), c)
      ensures ClientCode(c, code)
    {
      ClientWrites(c);
      match c {
        case DangerousSetVerifier(callback) =>
          if callback.None? {
            return ResultCodes.INVALID_PARAMETER;
          }
          settings := settings.(verifier := VerifyCallback(callback.value));
        case UseRoots(roots) =>
          if roots.None? {
            return ResultCodes.NULL_PARAMETER;
          }
          settings := settings.(verifier := WebPki(roots.value));
        case LoadRootsFromFile(file) =>
          var error, roots := LoadRoots(file);
          if roots.None? {
            return error;
          }
          settings := settings.(verifier := WebPki(roots.value));
        case SetAlpn(protocols) =>
          var copy := CopyArray(protocols);
          if copy.None? {
            return ResultCodes.NULL_PARAMETER;
          }
          settings := settings.(alpn := copy.value);
        case SetEnableSni(enable) =>
          settings := settings.(enableSni := enable);
        case SetCertifiedKey(keys) =>
          var copy := CopyArray(keys);
          if copy.None? {
            return ResultCodes.NULL_PARAMETER;
          }
          settings := settings.(resolver := copy);
      }
      code := ResultCodes.OK;
    }

    /** The config built after any run of setter calls. */
    method RunAndBuild(calls: seq<ClientCall>) returns (config: ClientSettings)
      modifies this
      ensures config == ClientAfter(old(settings), calls)
    {
      for i := 0 to |calls|
        invariant settings == ClientAfter(old(settings), calls[..i])
      {
        var _ := Call(calls[i]);
        ClientAfterSnoc(old(settings), calls, i);
      }
      assert calls[..|calls|] == calls;
      config := settings;
    }
  }

  /** A client keeps the verifier that rejects every certificate iff no verifier setter succeeded. */
  lemma {:induction false} KeepsRejectAll(calls: seq<ClientCall>)
    ensures ClientAfter(CLIENT_DEFAULTS, calls).verifier.RejectAll?
       <==> forall i :: 0 <= i < |calls| ==> !SetsServerVerifier(calls[i])
  {
    if calls == [] {
    } else {
      var n := |calls| - 1;
      KeepsRejectAll(calls[..n]);
      ClientWrites(calls[n]);
      assert forall i :: 0 <= i < n ==> calls[..n][i] == calls[i];
    }
  }

  /** Loading a file without certificates succeeds: it installs a verifier without roots. */
  lemma EmptyFileSucceeds()
    ensures var c := LoadRootsFromFile(Some(Readable(Certificates([]))));
      SetsServerVerifier(c) && ClientAfter(CLIENT_DEFAULTS, [c]).verifier == WebPki([])
  {
    ClientVerifierIs([LoadRootsFromFile(Some(Readable(Certificates([]))))], 0);
  }

  /** A setter called through a pointer: a NULL builder is refused before anything else. */
  method CallClient(b: ClientConfigBuilder?, c: ClientCall) returns (code: Code)
    modifies b
    ensures code == ResultCodes.OK <==> b != null && ClientSucceeds(c)
    ensures b == null ==> code == ResultCodes.NULL_PARAMETER
    ensures b != null ==> b.settings == ClientStep(old(b.settings), c)
    ensures b != null && code != ResultCodes.OK ==> b.settings == old(b.settings)
    ensures b != null ==> ClientCode(c, code)
  {
    if b == null {
      return ResultCodes.NULL_PARAMETER;
    }
    code := b.Call(c);
  }

  // ---- Server ----

  datatype ClientVerifier = NoClientAuth | Required(verifier: nat) | IfOffered(verifier: nat)
  datatype CertResolver = Choices(keys: seq<KeyId>) | HelloCallback(cb: Callback)
  datatype Persistence = Persistence(get: Callback, put: Callback)

  datatype ServerSettings = ServerSettings(
    verifier: ClientVerifier, resolver: Option<CertResolver>, storage: Option<Persistence>,
    alpn: seq<Bytes>, ignoreClientOrder: Option<bool>)

  datatype ServerCall =
    | SetClientVerifier(verifier: Option<nat>)
    | SetClientVerifierOptional(verifier: Option<nat>)
    | SetIgnoreClientOrder(ignore: bool)
    | SetServerAlpn(protocols: Option<seq<Option<Bytes>>>)
    | SetCertifiedKeys(keys: Option<seq<Option<KeyId>>>)
    | SetHelloCallback(callback: Option<Callback>)
    | SetPersistence(get: Option<Callback>, put: Option<Callback>)

  const SERVER_DEFAULTS := ServerSettings(NoClientAuth, None, None, [], None)

  function ClientAuthWrite(): ServerCall -> Option<ClientVerifier> {
    (c: ServerCall) =>
      match c
      case SetClientVerifier(Some(v)) => Some(Required(v))
      case SetClientVerifierOptional(Some(v)) => Some(IfOffered(v))
      case _ => None
  }

  function CertWrite(): ServerCall -> Option<Option<CertResolver>> {
    (c: ServerCall) =>
      match c
      case SetCertifiedKeys(keys) => (match Whole(keys) case Some(ks) => Some(Some(Choices(ks))) case None => None)
      case SetHelloCallback(Some(cb)) => Some(Some(HelloCallback(cb)))
      case _ => None
  }

  function StorageWrite(): ServerCall -> Option<Option<Persistence>> {
    (c: ServerCall) =>
      match c
      case SetPersistence(Some(g), Some(p)) => Some(Some(Persistence(g, p)))
      case _ => None
  }

  function ServerAlpnWrite(): ServerCall -> Option<seq<Bytes>> {
    (c: ServerCall) => match c case SetServerAlpn(ps) => Whole(ps) case _ => None
  }

  function OrderWrite(): ServerCall -> Option<Option<bool>> {
    (c: ServerCall) => match c case SetIgnoreClientOrder(b) => Some(Some(b)) case _ => None
  }

  function ServerAfter(s: ServerSettings, calls: seq<ServerCall>): ServerSettings {
    ServerSettings(LastWrite(calls, ClientAuthWrite(), s.verifier), LastWrite(calls, CertWrite(), s.resolver),
                   LastWrite(calls, StorageWrite(), s.storage), LastWrite(calls, ServerAlpnWrite(), s.alpn),
                   LastWrite(calls, OrderWrite(), s.ignoreClientOrder))
  }

  function ServerStep(s: ServerSettings, c: ServerCall): ServerSettings {
    ServerSettings(Or(ClientAuthWrite()(c), s.verifier), Or(CertWrite()(c), s.resolver),
                   Or(StorageWrite()(c), s.storage), Or(ServerAlpnWrite()(c), s.alpn),
                   Or(OrderWrite()(c), s.ignoreClientOrder))
  }

  lemma ServerAfterSnoc(s: ServerSettings, calls: seq<ServerCall>, i: nat)
    requires i < |calls|
    ensures ServerAfter(s, calls[..i + 1]) == ServerStep(ServerAfter(s, calls[..i]), calls[i])
  {
    LastWriteSnoc(calls, ClientAuthWrite(), s.verifier, i);
    LastWriteSnoc(calls, CertWrite(), s.resolver, i);
    LastWriteSnoc(calls, StorageWrite(), s.storage, i);
    LastWriteSnoc(calls, ServerAlpnWrite(), s.alpn, i);
    LastWriteSnoc(calls, OrderWrite(), s.ignoreClientOrder, i);
  }

  predicate ServerSucceeds(c: ServerCall) {
    || ClientAuthWrite()(c).Some? || CertWrite()(c).Some? || StorageWrite()(c).Some?
    || ServerAlpnWrite()(c).Some? || OrderWrite()(c).Some?
  }

  /** The call sets the client verifier, the certificate resolver, the protocols or the storage. */
  predicate SetsAuth(c: ServerCall) {
    (c.SetClientVerifier? || c.SetClientVerifierOptional?) && c.verifier.Some?
  }

  predicate SetsCert(c: ServerCall) {
    || (c.SetCertifiedKeys? && c.keys.Some? && NoNull(c.keys.value))
    || (c.SetHelloCallback? && c.callback.Some?)
  }

  predicate SetsProtocols(c: ServerCall) {
    c.SetServerAlpn? && c.protocols.Some? && NoNull(c.protocols.value)
  }

  predicate SetsStorage(c: ServerCall) {
    c.SetPersistence? && c.get.Some? && c.put.Some?
  }

  predicate SetsSomething(c: ServerCall) {
    SetsAuth(c) || SetsCert(c) || SetsProtocols(c) || SetsStorage(c) || c.SetIgnoreClientOrder?
  }

  lemma ServerWrites(c: ServerCall)
    ensures ClientAuthWrite()(c).Some? <==> SetsAuth(c)
    ensures CertWrite()(c).Some? <==> SetsCert(c)
    ensures ServerAlpnWrite()(c).Some? <==> SetsProtocols(c)
    ensures StorageWrite()(c).Some? <==> SetsStorage(c)
    ensures OrderWrite()(c).Some? <==> c.SetIgnoreClientOrder?
    ensures SetsCert(c) && c.SetCertifiedKeys? ==>
      var r := CertWrite()(c).value;
      r.Some? && r.value.Choices? && Copied(r.value.keys, c.keys.value)
    ensures SetsProtocols(c) ==> Copied(ServerAlpnWrite()(c).value, c.protocols.value)
  {
    match c {
      case SetServerAlpn(ps) => WholeCopies(ps);
      case SetCertifiedKeys(ks) => WholeCopies(ks);
      case _ =>
    }
  }

  /** Which client certificates a server asks for is decided by the last of the two verifier
      setters with a verifier: required, or optional; none at first. */
  lemma ServerAuthIs(calls: seq<ServerCall>, i: int)
    requires -1 <= i < |calls| && (0 <= i ==> SetsAuth(calls[i]))
    requires forall j :: i < j < |calls| ==> !SetsAuth(calls[j])
    ensures ServerAfter(SERVER_DEFAULTS, calls).verifier
         == if i < 0 then NoClientAuth
            else if calls[i].SetClientVerifier? then Required(calls[i].verifier.value)
            else IfOffered(calls[i].verifier.value)
  {
    forall j | 0 <= j < |calls| ensures ClientAuthWrite()(calls[j]).Some? <==> SetsAuth(calls[j]) {
      ServerWrites(calls[j]);
    }
    LastWriteAt(calls, ClientAuthWrite(), NoClientAuth, i);
  }

  /** The certificate resolver is that of the last call that gave keys or a callback. */
  lemma ServerCertIs(calls: seq<ServerCall>, i: int)
    requires -1 <= i < |calls| && (0 <= i ==> SetsCert(calls[i]))
    requires forall j :: i < j < |calls| ==> !SetsCert(calls[j])
    ensures var r := ServerAfter(SERVER_DEFAULTS, calls).resolver;
      if i < 0 then r == None
      else if calls[i].SetHelloCallback? then r == Some(HelloCallback(calls[i].callback.value))
      else r.Some? && r.value.Choices? && Copied(r.value.keys, calls[i].keys.value)
  {
    forall j | 0 <= j < |calls| ensures CertWrite()(calls[j]).Some? <==> SetsCert(calls[j]) {
      ServerWrites(calls[j]);
    }
    if 0 <= i {
      ServerWrites(calls[i]);
    }
    LastWriteAt(calls, CertWrite(), None, i);
  }

  /** The protocols, the session storage and the cipher order likewise. */
  lemma ServerAlpnIs(calls: seq<ServerCall>, i: int)
    requires -1 <= i < |calls| && (0 <= i ==> SetsProtocols(calls[i]))
    requires forall j :: i < j < |calls| ==> !SetsProtocols(calls[j])
    ensures var protocols := ServerAfter(SERVER_DEFAULTS, calls).alpn;
      if i < 0 then protocols == [] else Copied(protocols, calls[i].protocols.value)
  {
    forall j | 0 <= j < |calls| ensures ServerAlpnWrite()(calls[j]).Some? <==> SetsProtocols(calls[j]) {
      ServerWrites(calls[j]);
    }
    if 0 <= i {
      ServerWrites(calls[i]);
    }
    LastWriteAt(calls, ServerAlpnWrite(), [], i);
  }

  lemma ServerStorageIs(calls: seq<ServerCall>, i: int)
    requires -1 <= i < |calls| && (0 <= i ==> SetsStorage(calls[i]))
    requires forall j :: i < j < |calls| ==> !SetsStorage(calls[j])
    ensures ServerAfter(SERVER_DEFAULTS, calls).storage
         == if i < 0 then None else Some(Persistence(calls[i].get.value, calls[i].put.value))
  {
    forall j | 0 <= j < |calls| ensures StorageWrite()(calls[j]).Some? <==> SetsStorage(calls[j]) {
      ServerWrites(calls[j]);
    }
    LastWriteAt(calls, StorageWrite(), None, i);
  }

  lemma ServerOrderIs(calls: seq<ServerCall>, i: int)
    requires -1 <= i < |calls| && (0 <= i ==> calls[i].SetIgnoreClientOrder?)
    requires forall j :: i < j < |calls| ==> !calls[j].SetIgnoreClientOrder?
    ensures ServerAfter(SERVER_DEFAULTS, calls).ignoreClientOrder == if i < 0 then None else Some(calls[i].ignore)
  {
    LastWriteAt(calls, OrderWrite(), None, i);
  }

  class ServerConfigBuilder {
    var settings: ServerSettings

    constructor ()
      ensures settings == SERVER_DEFAULTS
    {
      settings := SERVER_DEFAULTS;
    }

    /** One setter. The two verifier setters return nothing to C; their code is internal. */
    method Call(c: ServerCall) returns (code: Code)
      modifies this
      ensures code == if ServerSucceeds(c) then ResultCodes.OK else ResultCodes.NULL_PARAMETER
      ensures code == if SetsSomething(c) then 7000 else 7002
      ensures code != ResultCodes.OK ==> settings == old(settings)
      ensures settings == ServerStep(old(settings), c)
    {
      ServerWrites(c);
      code := ResultCodes.NULL_PARAMETER;
      match c {
        case SetClientVerifier(v) =>
          if v.None? {
            return;
          }
          settings := settings.(verifier := Required(v.value));
        case SetClientVerifierOptional(v) =>
          if v.None? {
            return;
          }
          settings := settings.(verifier := IfOffered(v.value));
        case SetIgnoreClientOrder(ignore) =>
          settings := settings.(ignoreClientOrder := Some(ignore));
        case SetServerAlpn(protocols) =>
          var copy := CopyArray(protocols);
          if copy.None? {
            return;
          }
          settings := settings.(alpn := copy.value);
        case SetCertifiedKeys(keys) =>
          var copy := CopyArray(keys);
          if copy.None? {
            return;
          }
          settings := settings.(resolver := Some(Choices(copy.value)));
        case SetHelloCallback(callback) =>
          if callback.None? {
            return;
          }
          settings := settings.(resolver := Some(HelloCallback(callback.value)));
        case SetPersistence(get, put) =>
          if get.None? || put.None? {
            return;
          }
          settings := settings.(storage := Some(Persistence(get.value, put.value)));
      }
      code := ResultCodes.OK;
    }

    /** The config built after any run of setter calls; NULL without a certificate resolver. */
    method RunAndBuild(calls: seq<ServerCall>) returns (config: Option<ServerSettings>)
      modifies this
      ensures var after := ServerAfter(old(settings), calls);
              config == if after.resolver.Some? then Some(after) else None
    {
      for i := 0 to |calls|
        invariant settings == ServerAfter(old(settings), calls[..i])
      {
        var _ := Call(calls[i]);
        ServerAfterSnoc(old(settings), calls, i);
      }
      assert calls[..|calls|] == calls;
      config := if settings.resolver.Some? then Some(settings) else None;
    }
  }

  /** A setter called through a pointer: all NULLs, the builder's among them, have one code. */
  method CallServer(b: ServerConfigBuilder?, c: ServerCall) returns (code: Code)
    modifies b
    ensures code == if b != null && SetsSomething(c) then 7000 else 7002
    ensures b != null ==> b.settings == ServerStep(old(b.settings), c)
    ensures b != null && code != ResultCodes.OK ==> b.settings == old(b.settings)
  {
    if b == null {
      return ResultCodes.NULL_PARAMETER;
    }
    code := b.Call(c);
  }

  /** A server can be built iff some call installed keys or a hello callback. */
  lemma {:induction false} BuildableIff(calls: seq<ServerCall>)
    ensures ServerAfter(SERVER_DEFAULTS, calls).resolver.Some?
       <==> exists i :: 0 <= i < |calls| && SetsCert(calls[i])
  {
    if calls == [] {
    } else {
      var n := |calls| - 1;
      BuildableIff(calls[..n]);
      ServerWrites(calls[n]);
      if calls[n].SetCertifiedKeys? && SetsCert(calls[n]) {
        assert CertWrite()(calls[n]).value.Some?;
      }
      if i :| 0 <= i < n && SetsCert(calls[..n][i]) {
        assert SetsCert(calls[i]);
      }
      if i :| 0 <= i < |calls| && SetsCert(calls[i]) {
        assert i == n || SetsCert(calls[..n][i]);
      }
    }
  }
}
