/**
 * The verification policy of an SSL context (its verify mode and its
 * `check_hostname` flag) and the pure decisions around it: decoding the
 * OpenSSL version number, accepting a protocol version, vetting a server
 * host name, translating an SSL error code into an exception, and the
 * argument check of `RAND_bytes`. The OpenSSL calls themselves are not part
 * of this model.
 */
module Ssl {
  import opened Common

  // ---------------------------------------------------------------------
  // OPENSSL_VERSION_INFO

  /** `(major, minor, fix, patch, status)`. */
  datatype VersionInfo = VersionInfo(major: byte, minor: byte, fix: byte, patch: byte, status: byte)

  /** `parse_version_info`: each `n & mask` of the two's complement value is
    * `n % (mask + 1)` and each arithmetic `n >>= k` is `n / 2^k`, because
    * Dafny's `/` and `%` by a positive divisor round toward negative
    * infinity. */
  function ParseVersionInfo(n: int64): VersionInfo
  {
    var n0 := n as int;
    var status := n0 % 0x10;
    var n1 := n0 / 0x10;
    var patch := n1 % 0x100;
    var n2 := n1 / 0x100;
    var fix := n2 % 0x100;
    var n3 := n2 / 0x100;
    var minor := n3 % 0x100;
    var n4 := n3 / 0x100;
    var major := n4 % 0x100;
    VersionInfo(major as byte, minor as byte, fix as byte, patch as byte, status as byte)
  }

  /** The version number with the given fields: status in bits 0-3, patch in
    * bits 4-11, fix in 12-19, minor in 20-27 and major in 28-35. */
  function PackVersion(v: VersionInfo): nat
  {
    v.major as nat * 0x1000_0000 + v.minor as nat * 0x10_0000 + v.fix as nat * 0x1000
      + v.patch as nat * 0x10 + v.status as nat
  }

  /** Euclidean division is unique: a quotient and remainder that rebuild
    * `n` are `n / d` and `n % d`. This and the three lemmas after it take
    * each division of the version lemmas below one step at a time, instead
    * of leaving the whole nonlinear problem to the solver. */
  lemma {:induction false} DivModUnique(n: int, d: int, q: int, r: int)
    requires d > 0 && 0 <= r < d && n == q * d + r
    ensures n / d == q && n % d == r
  {
    var q0, r0 := n / d, n % d;
    assert n == q0 * d + r0;
    if q0 < q {
      MulAtLeast(q - q0, d);
      assert false;
    } else if q0 > q {
      MulAtLeast(q0 - q, d);
      assert false;
    }
  }

  /** A positive multiple of `d` is at least `d`. */
  lemma MulAtLeast(k: int, d: int)
    requires k >= 1 && d > 0
    ensures k * d >= d
  {
  }

  /** Splitting a remainder by a product of two radices. */
  lemma {:induction false} MixedRadix(n: int, a: int, b: int)
    requires a > 0 && b > 0
    ensures n % (a * b) == a * ((n / a) % b) + n % a
  {
    var q, r := n / a, n % a;
    var q2, r2 := q / b, q % b;
    assert n == a * q + r;
    assert q == b * q2 + r2;
    assert n == q2 * (a * b) + (a * r2 + r) by {
      assert a * q == a * (b * q2) + a * r2;
      assert a * (b * q2) == q2 * (a * b);
    }
    assert a * r2 <= a * (b - 1) by { MulMonotone(a, r2, b - 1); }
    assert a * (b - 1) == a * b - a;
    DivModUnique(n, a * b, q2, a * r2 + r);
  }

  /** Multiplying by a positive number keeps the order. */
  lemma MulMonotone(a: int, x: int, y: int)
    requires a > 0 && 0 <= x <= y
    ensures a * x <= a * y
  {
  }

  /** The five fields are exactly the low 36 bits of the number; the higher
    * bits, the sign included, are dropped. */
  lemma {:induction false} ParseVersionInfoIsLow36Bits(n: int64)
    ensures PackVersion(ParseVersionInfo(n)) == n as int % 0x10_0000_0000
  {
    var n0 := n as int;
    var n1 := n0 / 0x10;
    var n2 := n1 / 0x100;
    var n3 := n2 / 0x100;
    var n4 := n3 / 0x100;
    MixedRadix(n0, 0x10, 0x1_0000_0000);
    MixedRadix(n1, 0x100, 0x100_0000);
    MixedRadix(n2, 0x100, 0x1_0000);
    MixedRadix(n3, 0x100, 0x100);
  }

  /** Packing fields that are in range and parsing them back gives the same
    * fields. */
  lemma {:induction false} ParseVersionInfoOfPack(v: VersionInfo)
    requires v.status < 0x10
    ensures PackVersion(v) < 0x10_0000_0000
    ensures ParseVersionInfo(PackVersion(v) as int64) == v
  {
    var p := PackVersion(v);
    var x1 := v.major as int * 0x100_0000 + v.minor as int * 0x1_0000 + v.fix as int * 0x100 + v.patch as int;
    var x2 := v.major as int * 0x1_0000 + v.minor as int * 0x100 + v.fix as int;
    var x3 := v.major as int * 0x100 + v.minor as int;
    DivModUnique(p, 0x10, x1, v.status as int);
    DivModUnique(x1, 0x100, x2, v.patch as int);
    DivModUnique(x2, 0x100, x3, v.fix as int);
    DivModUnique(x3, 0x100, v.major as int, v.minor as int);
    DivModUnique(v.major as int, 0x100, 0, v.major as int);
  }

  // ---------------------------------------------------------------------
  // Protocol versions and the context constructor's protocol check

  /** `SslVersion`, with the discriminants `Ssl2 = 0`, `Ssl3 = 1`, `Tls = 2`,
    * `Tls1 = 3`, `TlsClient = 0x10`, `TlsServer = 0x11`. */
  datatype SslVersion = Ssl2 | Ssl3 | Tls | Tls1 | TlsClient | TlsServer

  function SslVersionValue(v: SslVersion): int32
  {
    match v
    case Ssl2 => 0
    case Ssl3 => 1
    case Tls => 2
    case Tls1 => 3
    case TlsClient => 0x10
    case TlsServer => 0x11
  }

  /** `SslVersion::try_from` on an `i32`. */
  function SslVersionFromValue(n: int32): (r: Option<SslVersion>)
    ensures r.Some? ==> SslVersionValue(r.value) == n
  {
    if n == 0 then Some(Ssl2)
    else if n == 1 then Some(Ssl3)
    else if n == 2 then Some(Tls)
    else if n == 3 then Some(Tls1)
    else if n == 0x10 then Some(TlsClient)
    else if n == 0x11 then Some(TlsServer)
    else None
  }

  lemma SslVersionValueRoundTrip(v: SslVersion)
    ensures SslVersionFromValue(SslVersionValue(v)) == Some(v)
  {
  }

  /** The protocol check of the context constructor: the value must be a
    * known `SslVersion`, and only `Tls`, `TlsClient` and `TlsServer` have an
    * OpenSSL method behind them. */
  function ContextProtocol(protoVersion: int32): (r: Result<SslVersion>)
    ensures r.Ok? <==> protoVersion == 2 || protoVersion == 0x10 || protoVersion == 0x11
    ensures r.Ok? ==> SslVersionValue(r.value) == protoVersion
    ensures r.Err? ==> r.error == ValueError("invalid protocol version")
  {
    match SslVersionFromValue(protoVersion)
    case None => Err(ValueError("invalid protocol version"))
    case Some(proto) =>
      match proto
      case Tls => Ok(Tls)
      case TlsClient => Ok(TlsClient)
      case TlsServer => Ok(TlsServer)
      case _ => Err(ValueError("invalid protocol version"))
  }

  // ---------------------------------------------------------------------
  // Verify mode and check_hostname

  /** The flags of OpenSSL's `SslVerifyMode`; a mode is a set of them, and
    * `SslVerifyMode::NONE` is the empty set. */
  datatype VerifyFlag = Peer | FailIfNoPeerCert | ClientOnce

  const VERIFY_NONE: set<VerifyFlag> := {}
  const VERIFY_PEER: set<VerifyFlag> := {Peer}
  const VERIFY_REQUIRED: set<VerifyFlag> := {Peer, FailIfNoPeerCert}

  /** `CertRequirements`: `CERT_NONE = 0`, `CERT_OPTIONAL = 1`,
    * `CERT_REQUIRED = 2`. */
  datatype CertRequirements = CertNone | CertOptional | CertRequired

  function CertValue(c: CertRequirements): int32
  {
    match c
    case CertNone => 0
    case CertOptional => 1
    case CertRequired => 2
  }

  /** `CertRequirements::try_from` on an `i32`. */
  function CertFromValue(n: int32): (r: Option<CertRequirements>)
    ensures r.Some? <==> 0 <= n <= 2
    ensures r.Some? ==> CertValue(r.value) == n
  {
    if n == 0 then Some(CertNone)
    else if n == 1 then Some(CertOptional)
    else if n == 2 then Some(CertRequired)
    else None
  }

  /** The verify modes this file ever installs. */
  predicate KnownMode(mode: set<VerifyFlag>)
  {
    mode == VERIFY_NONE || mode == VERIFY_PEER || mode == VERIFY_REQUIRED
  }

  /** The invariant the setters keep: hostname checking needs certificate
    * verification. */
  predicate PolicyHolds(mode: set<VerifyFlag>, checkHostname: bool)
  {
    KnownMode(mode) && (checkHostname ==> mode != VERIFY_NONE)
  }

  function ModeOfCert(c: CertRequirements): set<VerifyFlag>
  {
    match c
    case CertNone => VERIFY_NONE
    case CertOptional => VERIFY_PEER
    case CertRequired => VERIFY_REQUIRED
  }

  /** The `verify_mode` getter on a known mode (its `unreachable!()` arm is
    * excluded by `KnownMode`). */
  function VerifyModeValue(mode: set<VerifyFlag>): (r: int32)
    requires KnownMode(mode)
    ensures 0 <= r <= 2
    ensures r == 0 <==> mode == VERIFY_NONE
  {
    if mode == VERIFY_NONE then CertValue(CertNone)
    else if mode == VERIFY_PEER then CertValue(CertOptional)
    else CertValue(CertRequired)
  }

  /** Reading back the mode that a requirement installs gives that
    * requirement, and every known mode is installed by one. */
  lemma VerifyModeRoundTrip(c: CertRequirements, mode: set<VerifyFlag>)
    ensures KnownMode(ModeOfCert(c)) && VerifyModeValue(ModeOfCert(c)) == CertValue(c)
    ensures KnownMode(mode) ==> ModeOfCert(CertFromValue(VerifyModeValue(mode)).value) == mode
  {
  }

  /** The context constructor's initial policy for an accepted protocol. */
  function InitialCheckHostname(proto: SslVersion): bool
  {
    proto == TlsClient
  }

  function InitialVerifyMode(proto: SslVersion): set<VerifyFlag>
  {
    if InitialCheckHostname(proto) then VERIFY_REQUIRED else VERIFY_NONE
  }

  /** A new client context checks host names and requires a certificate;
    * any other new context does neither. */
  lemma InitialPolicy(proto: SslVersion)
    ensures PolicyHolds(InitialVerifyMode(proto), InitialCheckHostname(proto))
    ensures InitialCheckHostname(proto) <==> proto == TlsClient
    ensures VerifyModeValue(InitialVerifyMode(proto)) == (if proto == TlsClient then 2 else 0)
  {
  }

  /** `set_verify_mode`: the mode to install, or the error. */
  function VerifyModeAfterSet(mode: set<VerifyFlag>, checkHostname: bool, cert: int32): (r: Result<set<VerifyFlag>>)
  {
    match CertFromValue(cert)
    case None => Err(ValueError("invalid value for verify_mode"))
    case Some(req) =>
      if req == CertNone && checkHostname then
        Err(ValueError("Cannot set verify_mode to CERT_NONE when check_hostname is enabled."))
      else
        Ok(ModeOfCert(req))
  }

  /** `set_verify_mode` rejects values other than 0, 1, 2 and rejects 0 while
    * hostname checking is on; otherwise the getter afterwards returns what
    * was set. It keeps the policy invariant. */
  lemma SetVerifyModeSpec(mode: set<VerifyFlag>, checkHostname: bool, cert: int32)
    requires PolicyHolds(mode, checkHostname)
    ensures var r := VerifyModeAfterSet(mode, checkHostname, cert);
      && (r.Err? <==> !(0 <= cert <= 2) || (cert == 0 && checkHostname))
      && (!(0 <= cert <= 2) ==> r == Err(ValueError("invalid value for verify_mode")))
      && (cert == 0 && checkHostname ==>
            r == Err(ValueError("Cannot set verify_mode to CERT_NONE when check_hostname is enabled.")))
      && (r.Ok? ==> PolicyHolds(r.value, checkHostname) && VerifyModeValue(r.value) == cert)
  {
  }

  /** `set_check_hostname`: turning hostname checking on while nothing is
    * verified switches to CERT_REQUIRED; otherwise the mode is kept. */
  function VerifyModeAfterCheckHostname(mode: set<VerifyFlag>, ch: bool): set<VerifyFlag>
  {
    if ch && mode == VERIFY_NONE then VERIFY_REQUIRED else mode
  }

  lemma SetCheckHostnameSpec(mode: set<VerifyFlag>, checkHostname: bool, ch: bool)
    requires PolicyHolds(mode, checkHostname)
    ensures PolicyHolds(VerifyModeAfterCheckHostname(mode, ch), ch)
    ensures mode != VERIFY_NONE ==> VerifyModeAfterCheckHostname(mode, ch) == mode
    ensures !ch ==> VerifyModeAfterCheckHostname(mode, ch) == mode
    ensures ch && mode == VERIFY_NONE ==> VerifyModeAfterCheckHostname(mode, ch) == VERIFY_REQUIRED
  {
  }

  /** `_SSLContext`: only the verification policy is modelled. */
  class SslContext {
    var verifyMode: set<VerifyFlag>
    var checkHostname: bool
    const protocol: SslVersion

    ghost predicate Valid()
      reads this
    {
      PolicyHolds(verifyMode, checkHostname)
    }

    constructor Init(proto: SslVersion)
      ensures Valid()
      ensures protocol == proto
      ensures checkHostname == InitialCheckHostname(proto) && verifyMode == InitialVerifyMode(proto)
    {
      protocol := proto;
      checkHostname := proto == TlsClient;
      verifyMode := if proto == TlsClient then VERIFY_REQUIRED else VERIFY_NONE;
    }

    /** `py_new`: the protocol check, then the initial policy. */
    static method New(protoVersion: int32) returns (r: Result<SslContext>)
      ensures r.Err? <==> ContextProtocol(protoVersion).Err?
      ensures r.Err? ==> r == Err(ValueError("invalid protocol version"))
      ensures r.Ok? ==>
        && fresh(r.value) && r.value.Valid()
        && SslVersionValue(r.value.protocol) == protoVersion
        && r.value.checkHostname == (protoVersion == 0x10)
        && r.value.VerifyMode() == (if protoVersion == 0x10 then 2 else 0)
    {
      var proto :- ContextProtocol(protoVersion);
      var ctx := new SslContext.Init(proto);
      r := Ok(ctx);
    }

    /** The `verify_mode` getter. */
    function VerifyMode(): (r: int32)
      requires Valid()
      reads this
      ensures 0 <= r <= 2
      ensures r == 0 <==> verifyMode == VERIFY_NONE
      ensures ModeOfCert(CertFromValue(r).value) == verifyMode
    {
      VerifyModeRoundTrip(CertNone, verifyMode);
      VerifyModeValue(verifyMode)
    }

    /** The `verify_mode` setter. */
    method SetVerifyMode(cert: int32) returns (r: Outcome)
      requires Valid()
      modifies this`verifyMode
      ensures Valid()
      ensures var next := VerifyModeAfterSet(old(verifyMode), checkHostname, cert);
        && (next.Err? ==> r == Fail(next.error) && verifyMode == old(verifyMode))
        && (next.Ok? ==> r == Pass && verifyMode == next.value && VerifyMode() == cert)
    {
      SetVerifyModeSpec(verifyMode, checkHostname, cert);
      match VerifyModeAfterSet(verifyMode, checkHostname, cert)
      case Err(e) => r := Fail(e);
      case Ok(m) => verifyMode := m; r := Pass;
    }

    /** The `check_hostname` setter. */
    method SetCheckHostname(ch: bool)
      requires Valid()
      modifies this`verifyMode, this`checkHostname
      ensures Valid()
      ensures checkHostname == ch && verifyMode == VerifyModeAfterCheckHostname(old(verifyMode), ch)
    {
      SetCheckHostnameSpec(verifyMode, checkHostname, ch);
      if ch && verifyMode == VERIFY_NONE {
        verifyMode := VERIFY_REQUIRED;
      }
      checkHostname := ch;
    }
  }

  // ---------------------------------------------------------------------
  // server_hostname in _wrap_socket

  /** Which OpenSSL settings `_wrap_socket` makes for the server host name:
    * the SNI name, and the name or address the peer certificate is checked
    * against. */
  datatype HostnameSetup = HostnameSetup(sni: bool, verifyIp: bool, verifyHost: bool)

  /** `isIp` is whether the name parses as an IP address (the standard
    * library's parser is not part of this model). */
  function WrapSocketHostname(serverHostname: Option<string>, isIp: bool, checkHostname: bool): (r: Result<HostnameSetup>)
    ensures r.Err? <==> serverHostname.Some? && (serverHostname.value == [] || serverHostname.value[0] == '.')
    ensures r.Err? ==> r.error.ValueError?
    ensures serverHostname.None? ==> r == Ok(HostnameSetup(false, false, false))
  {
    match serverHostname
    case None => Ok(HostnameSetup(false, false, false))
    case Some(hostname) =>
      if hostname == [] || hostname[0] == '.' then
        Err(ValueError("server_hostname cannot be an empty string or start with a leading dot."))
      else
        Ok(HostnameSetup(!isIp, checkHostname && isIp, checkHostname && !isIp))
  }

  /** An acceptable name is sent as SNI unless it is an address; with
    * hostname checking on, exactly one of address or name verification is
    * configured, and with it off neither is. */
  lemma WrapSocketHostnameSpec(hostname: string, isIp: bool, checkHostname: bool)
    requires hostname != [] && hostname[0] != '.'
    ensures var r := WrapSocketHostname(Some(hostname), isIp, checkHostname);
      && r.Ok?
      && (r.value.sni <==> !isIp)
      && (checkHostname ==> (r.value.verifyIp != r.value.verifyHost) && (r.value.verifyIp <==> isIp))
      && (!checkHostname ==> !r.value.verifyIp && !r.value.verifyHost)
  {
  }

  // ---------------------------------------------------------------------
  // convert_ssl_error

  /** `ssl::ErrorCode` values (OpenSSL's `SSL_ERROR_*`). */
  const SSL_ERROR_SSL: int32 := 1
  const SSL_ERROR_WANT_READ: int32 := 2
  const SSL_ERROR_WANT_WRITE: int32 := 3
  const SSL_ERROR_SYSCALL: int32 := 5

  /** `ssl::Error`: its code, the I/O error it wraps (an errno) and the
    * OpenSSL error stack it wraps (an identifier). */
  datatype SslLibError = SslLibError(code: int32, ioError: Option<int>, sslError: Option<nat>)

  function ConvertSslError(e: SslLibError): (r: Exc)
    ensures e.code == SSL_ERROR_WANT_READ ==>
      r == SslError("SSLWantReadError", "The operation did not complete (read)")
    ensures e.code == SSL_ERROR_WANT_WRITE ==>
      r == SslError("SSLWantWriteError", "The operation did not complete (write)")
    ensures e.code == SSL_ERROR_SYSCALL ==>
      r == if e.ioError.Some? then OsError(e.ioError.value)
           else SslError("SSLSyscallError", "EOF occurred in violation of protocol")
    ensures e.code == SSL_ERROR_SSL && e.sslError.Some? ==> r == OpenSslError(e.sslError.value)
    ensures (e.code !in {SSL_ERROR_WANT_READ, SSL_ERROR_WANT_WRITE, SSL_ERROR_SYSCALL}
             && (e.code == SSL_ERROR_SSL ==> e.sslError.None?)) ==>
      r == SslError("SSLError", "A failure in the SSL library occurred")
  {
    if e.code == SSL_ERROR_WANT_READ then
      SslError("SSLWantReadError", "The operation did not complete (read)")
    else if e.code == SSL_ERROR_WANT_WRITE then
      SslError("SSLWantWriteError", "The operation did not complete (write)")
    else if e.code == SSL_ERROR_SYSCALL then
      match e.ioError
      case Some(io) => OsError(io)
      case None => SslError("SSLSyscallError", "EOF occurred in violation of protocol")
    else if e.code == SSL_ERROR_SSL then
      match e.sslError
      case Some(stack) => OpenSslError(stack)
      case None => SslError("SSLError", "A failure in the SSL library occurred")
    else
      SslError("SSLError", "A failure in the SSL library occurred")
  }

  /** Only a system-call failure that carries an I/O error becomes an OS
    * error, and only an SSL failure that carries an OpenSSL error stack
    * becomes that stack's error; every other error is an instance of one of
    * the ssl module's classes, and the two "want" codes get distinct ones. */
  lemma ConvertSslErrorKinds(e: SslLibError)
    ensures ConvertSslError(e).OsError? <==> e.code == SSL_ERROR_SYSCALL && e.ioError.Some?
    ensures ConvertSslError(e).OpenSslError? <==> e.code == SSL_ERROR_SSL && e.sslError.Some?
    ensures ConvertSslError(e).SslError? <==> !ConvertSslError(e).OsError? && !ConvertSslError(e).OpenSslError?
    ensures ConvertSslError(SslLibError(SSL_ERROR_WANT_READ, None, None)).cls
      != ConvertSslError(SslLibError(SSL_ERROR_WANT_WRITE, None, None)).cls
  {
  }

  // ---------------------------------------------------------------------
  // RAND_bytes

  /** `RAND_bytes`: a negative count is refused before OpenSSL is asked;
    * otherwise the buffer holds `n` bytes drawn from the generator
    * (`entropy`), or the generator's failure (`failure`) is reported. */
  function RandBytes(n: int32, entropy: nat -> byte, failure: Option<nat>): (r: Result<seq<byte>>)
    ensures n < 0 ==> r == Err(ValueError("num must be positive"))
    ensures n >= 0 && failure.Some? ==> r == Err(OpenSslError(failure.value))
    ensures n >= 0 && failure.None? ==> r.Ok?
    ensures r.Ok? ==>
      (n >= 0 && |r.value| == n as int && forall i :: 0 <= i < |r.value| ==> r.value[i] == entropy(i))
  {
    if n < 0 then Err(ValueError("num must be positive"))
    else if failure.Some? then Err(OpenSslError(failure.value))
    else Ok(seq(n as int, i requires 0 <= i => entropy(i)))
  }
}
