# RustPython: generator protocol, SSL verification policy, registry values

This project models three pieces of the RustPython interpreter in Dafny.

- **The generator protocol** (`vm/src/coroutine.rs`, module `Coroutines`).
  Generators, coroutines and async generators all share the `Coro` object.
  Its `send`, `throw` and `close` do several things:
  - guard against resuming an object that is already running;
  - save the object's own exception and restore it around each run of the frame;
  - close the object once the frame returns or raises;
  - turn the frame's outcome into the iteration protocol.

  `send` alone re-wraps a `StopIteration` (and, for an async generator, a
  `StopAsyncIteration`) in a `RuntimeError`. In the model `Coro` is a class
  whose fields are the object's flags. The frame is a class that replays a
  fixed behaviour function. The runtime's exception stack is a sequence in
  the `Vm` class.

  A frame run may include one call that the guest body makes back into its
  own generator. This makes the reentrancy guard observable. A reentrant
  `throw` or `close`, or a `send` into a frame that has started (or of
  `None`), fails with "already executing", and `maybe_close` or `close` then
  closes the object. A reentrant `send` of a value other than `None` into a
  frame that has not started fails earlier, with the `TypeError`, and changes
  nothing.

- **The SSL context's verification policy** (`stdlib/src/ssl.rs`, module `Ssl`).
  - How the context constructor creates the verify mode and `check_hostname`,
    and how the two setters keep the rule that checking host names needs
    certificate verification.
  - How the protocol version is accepted.
  - How `OPENSSL_VERSION_INFO` is decoded from the version number.
  - How `_wrap_socket` vets `server_hostname` and configures SNI and
    host or address verification.
  - The table that turns an SSL error code into an exception.
  - The argument check of `RAND_bytes`.

- **Registry values and handles** (`vm/src/stdlib/winreg.rs`, module `Winreg`).
  - `reg_to_py`, which decodes a raw registry value: 4-byte integers in
    either byte order, 8-byte little-endian integers, NUL-terminated UTF-16
    strings and string lists, or raw bytes.
  - The lifecycle of an `HKEYType` object: `Close`, `Detach`, `__bool__`
    and `__exit__`.
  - The argument checks that `OpenKey` and `SetValue` make before the
    registry is touched.

  The registry itself is a `Registry` object. It records the calls made to
  it and the handles dropped, and it answers each call from a fixed function.

Module `Common` defines what the three share:
- the integer widths;
- the exception kinds;
- the `Result` and `Outcome` wrappers for `PyResult`.

## Model

| member | source | states |
|---|---|---|
| `Coroutines.IntoIterReturnRoundTrip` | vm/src/coroutine.rs:12-24 | A yield becomes a produced value. A returned `None` becomes a bare stop, and any other returned value is carried by the stop. The translation can be inverted, and a stop never carries `None` explicitly. |
| `Coroutines.GenNameInjective` | vm/src/coroutine.rs:39-48 | The three kinds have distinct labels. |
| `Coroutines.Rewrap` | vm/src/coroutine.rs:114-128 | The error `send` reports is never the object's own termination signal. |
| `Coroutines.RewrapChangesOnlyTerminationSignals` | vm/src/coroutine.rs:114-128 | `StopIteration`, and for async generators `StopAsyncIteration`, becomes a `RuntimeError` whose cause is the original. The messages are "&lt;kind&gt; raised StopIteration" and "async generator raised StopAsyncIteration". Exactly the other errors pass unchanged. |
| `Coroutines.SendResult` | vm/src/coroutine.rs:110-130 | `send` succeeds exactly when the frame did not raise, and no termination signal leaks as the error. |
| `Coroutines.ThrowDoesNotRewrap` | vm/src/coroutine.rs:133-147 | `throw` propagates the frame's error as it is; for a termination signal this differs from what `send` returns. |
| `Coroutines.CloseResult` | vm/src/coroutine.rs:149-169 | `close` succeeds exactly when the frame returned or raised `GeneratorExit`. A frame that yields gives "&lt;kind&gt; ignored GeneratorExit" with no cause. Any other error propagates unchanged. |
| `Coroutines.Vm.PushException` | vm/src/coroutine.rs:81 | Pushes the given exception on top of the stack. |
| `Coroutines.Vm.PopException` | vm/src/coroutine.rs:84-86 | Pops the top of the exception stack; an empty stack gives no exception. |
| `Coroutines.Frame.Execute` | vm/src/coroutine.rs:80-83 | One run of the frame sees the current exception and leaves its own in its place. The cursor is set to where the run stopped, and the run count goes up by one. |
| `Coroutines.Coro.constructor` | vm/src/coroutine.rs:51-59 | A new object is neither closed nor running and holds no exception. |
| `Coroutines.Coro.MaybeClose` | vm/src/coroutine.rs:61-66 | Closed afterwards exactly when it was closed before, or the run returned or raised. |
| `Coroutines.Coro.RunWithContext` | vm/src/coroutine.rs:68-89 | A running object reports "already executing" and nothing changes. Otherwise the frame runs once on the object's saved exception. Afterwards the slot holds the exception the frame left current, the guard is released, and the caller's exception stack is as before. A reentrant call closes the object unless it is a `send` of a value other than `None` into a frame that has not started. |
| `Coroutines.Coro.Reenter` | vm/src/coroutine.rs:77-79 | A call the body makes into its own running object changes nothing but `closed`. `closed` becomes true exactly when the call does not first fail the just-started check. |
| `Coroutines.Coro.Send` | vm/src/coroutine.rs:91-131 | The outcome depends on the object's state: <br>- Closed: a bare stop, and nothing is touched. <br>- The frame has not started and the value is not `None`: a `TypeError`, and nothing is touched. <br>- Running: "already executing", and the object closes. <br>- Otherwise: the frame resumes (with no value on its first start), the result is `SendResult` of its outcome, and the object is closed exactly when the frame returned or raised, or a reentrant call failed. |
| `Coroutines.Coro.Throw` | vm/src/coroutine.rs:133-147 | The outcome depends on the object's state: <br>- Closed: the normalized exception, and nothing is touched. <br>- Running: "already executing", and the object closes. <br>- Otherwise: the thrown exception enters the frame and its outcome is propagated without re-wrapping. |
| `Coroutines.Coro.Close` | vm/src/coroutine.rs:149-169 | The object is always closed afterwards. <br>- Closed already: success, and nothing is touched. <br>- Running: "already executing". <br>- Otherwise: `GeneratorExit` is thrown in, and the result is `CloseResult` of the frame's outcome. |
| `Coroutines.Coro.SetName` | vm/src/coroutine.rs:187-189 | Only the name changes. |
| `Coroutines.HexRoundTrip` | vm/src/coroutine.rs:191-198 | The identity in a `repr` is non-empty and every character is a lower-case hexadecimal digit. It has no leading zero except for 0, and it reads back as the identity. |
| `Ssl.ParseVersionInfoIsLow36Bits` | stdlib/src/ssl.rs:245-256 | The five decoded fields pack back to exactly the low 36 bits of the number, negative numbers included. |
| `Ssl.ParseVersionInfoOfPack` | stdlib/src/ssl.rs:245-256 | In-range fields packed into a version number decode back to the same fields. |
| `Ssl.SslVersionFromValue` | stdlib/src/ssl.rs:258-268 | A decoded protocol version has the given discriminant; `SslVersionValueRoundTrip` states the converse. |
| `Ssl.SslVersionValueRoundTrip` | stdlib/src/ssl.rs:258-268 | Every protocol version decodes from its own discriminant. |
| `Ssl.CertFromValue` | stdlib/src/ssl.rs:285-291 | Exactly 0, 1 and 2 are certificate requirements, each with that discriminant. |
| `Ssl.ContextProtocol` | stdlib/src/ssl.rs:475-484 | A context can be created exactly for `PROTOCOL_TLS`, `PROTOCOL_TLS_CLIENT` and `PROTOCOL_TLS_SERVER`. Any other value is "invalid protocol version". |
| `Ssl.InitialPolicy` | stdlib/src/ssl.rs:491-496 | A new client context checks host names and requires a certificate; any other new context does neither. Both satisfy the policy invariant. |
| `Ssl.SslContext.Init` | stdlib/src/ssl.rs:491-496 | A new context satisfies the policy and starts from the initial policy of its protocol. |
| `Ssl.SslContext.VerifyMode` | stdlib/src/ssl.rs:583-594 | The getter gives 0, 1 or 2. It is 0 exactly when nothing is verified, and the requirement it names installs the current mode. |
| `Ssl.SslContext.New` | stdlib/src/ssl.rs:474-531 | Fails exactly on an unusable protocol. Otherwise the new context satisfies the policy, with `check_hostname` on and `verify_mode` `CERT_REQUIRED` exactly for a client context. |
| `Ssl.VerifyModeValue` | stdlib/src/ssl.rs:583-594 | The getter yields 0, 1 or 2, and 0 exactly for the empty mode. |
| `Ssl.VerifyModeRoundTrip` | stdlib/src/ssl.rs:583-614 | Reading back the mode a requirement installs gives that requirement, and every known mode comes from one. |
| `Ssl.SetVerifyModeSpec` | stdlib/src/ssl.rs:596-614 | Fails exactly for values outside 0..2 ("invalid value for verify_mode"), or for 0 while host names are checked ("Cannot set verify_mode to CERT_NONE when check_hostname is enabled."). On success the getter afterwards returns the value set and the policy still holds. |
| `Ssl.SslContext.SetVerifyMode` | stdlib/src/ssl.rs:596-614 | On error the mode is unchanged; otherwise the mode is installed and read back as set. The policy invariant is kept. |
| `Ssl.SetCheckHostnameSpec` | stdlib/src/ssl.rs:620-626 | Turning host-name checking on while nothing is verified switches to `CERT_REQUIRED` (peer verification and failure without a peer certificate). In every other case the mode is kept. The policy holds afterwards. |
| `Ssl.SslContext.SetCheckHostname` | stdlib/src/ssl.rs:616-626 | The flag is stored and the mode is adjusted as above, keeping the invariant. |
| `Ssl.WrapSocketHostname` | stdlib/src/ssl.rs:791-814 | Fails with a `ValueError` exactly for an empty name or one with a leading dot. Without a name nothing is configured. |
| `Ssl.WrapSocketHostnameSpec` | stdlib/src/ssl.rs:798-812 | A valid name is sent as SNI unless it is an IP address. With checking on, exactly one of address or host verification is set, matching the name; with checking off, neither is. |
| `Ssl.ConvertSslError` | stdlib/src/ssl.rs:1205-1233 | Each error code maps to its exception class and message: <br>- `WANT_READ` and `WANT_WRITE`: their own classes. <br>- `SYSCALL`: an I/O error becomes the OS error, with no I/O error it is the EOF message. <br>- `SSL`: an OpenSSL stack becomes its `SSLError`. <br>- Anything else: the generic SSL failure. |
| `Ssl.ConvertSslErrorKinds` | stdlib/src/ssl.rs:1210-1232 | An error becomes an OS error exactly for `SYSCALL` with an I/O error, and an OpenSSL stack error exactly for `SSL` with a stack. Everything else is an ssl-module exception, and `WANT_READ` and `WANT_WRITE` get different classes. |
| `Ssl.RandBytes` | stdlib/src/ssl.rs:428-436 | A negative count is "num must be positive". Otherwise the generator's failure propagates; without a failure the call succeeds with exactly `n` bytes, each taken from the generator. |
| `Winreg.LittleEndianBound` | vm/src/stdlib/winreg.rs:277-289 | A little-endian value of `k` bytes is below 256^k. |
| `Winreg.LittleEndianOfEncode` | vm/src/stdlib/winreg.rs:277-289 | A number that fits decodes from its own little-endian encoding. |
| `Winreg.EncodeOfLittleEndian` | vm/src/stdlib/winreg.rs:277-289 | Bytes decode to the number whose encoding at that width is the same bytes. |
| `Winreg.BigEndianIsReversedLittleEndian` | vm/src/stdlib/winreg.rs:301-303 | `from_be_bytes` is `from_le_bytes` of the reversed bytes. |
| `Winreg.RegToPyInteger` | vm/src/stdlib/winreg.rs:277-304 | For `REG_DWORD`, `REG_DWORD_BIG_ENDIAN` and `REG_QWORD`: <br>- Empty data is 0. <br>- Any other length than the width is the wrong-length error. <br>- Data of the width is the number those bytes stand for in the type's byte order. <br>- Every number of that width reads back from its bytes. |
| `Winreg.BytesToWide` | vm/src/stdlib/winreg.rs:290-298 | There are code units exactly for an even byte count. |
| `Winreg.WideUnitsIndex` | vm/src/stdlib/winreg.rs:290-298 | Unit `i` is bytes `2i` and `2i+1` read little-endian. |
| `Winreg.WideUnitsOfUnitBytes` | vm/src/stdlib/winreg.rs:290-298 | Code units written out as bytes read back as the same units. |
| `Winreg.NulPositionSpec` | vm/src/stdlib/winreg.rs:310-313 | Every unit before the position is nonzero, and the unit at it is NUL unless the position is the end. |
| `Winreg.RegToPyString` | vm/src/stdlib/winreg.rs:306-316 | For `REG_SZ` and `REG_EXPAND_SZ`, an odd length fails. Otherwise the string is the NUL-free prefix of the units, ending at the first NUL or at the end. |
| `Winreg.RegToPyStringRoundTrip` | vm/src/stdlib/winreg.rs:306-316 | A NUL-free string stored with or without its terminator reads back as itself. |
| `Winreg.SplitOnNulSpec` | vm/src/stdlib/winreg.rs:329-332 | Splitting on NUL gives NUL-free pieces, one more than the NULs, that join back to the input. |
| `Winreg.SplitOfJoin` | vm/src/stdlib/winreg.rs:329-332 | NUL-free pieces joined with NULs split back into the same pieces. |
| `Winreg.RegToPyMultiString` | vm/src/stdlib/winreg.rs:317-334 | For `REG_MULTI_SZ`: <br>- Empty data is the empty list. <br>- An odd length fails. <br>- Otherwise one trailing NUL is dropped and the rest is split into NUL-free strings that join back to it. |
| `Winreg.RegToPyOther` | vm/src/stdlib/winreg.rs:335-341 | Any other type is `None` for empty data, and otherwise the bytes unchanged. |
| `Winreg.MultiSzGainsEmptyString` | vm/src/stdlib/winreg.rs:317-334 | Every list of NUL-free strings stored in the standard double-NUL layout reads back as that list with an extra empty string at the end. |
| `Winreg.MultiSzGainsEmptyStringExample` | vm/src/stdlib/winreg.rs:317-334 | `["a", "b"]` stored in the standard layout reads back as `["a", "b", ""]`. |
| `Winreg.SplitOfTerminated` | vm/src/stdlib/winreg.rs:323-332 | Splitting NUL-terminated NUL-free strings on every NUL gives the strings followed by one empty string. |
| `Winreg.WrongLengthMessageIsLiteral` | vm/src/stdlib/winreg.rs:278-304 | For every integer type and every non-empty data of the wrong length, the error is "name value is wrong length", and never the message that names the type. |
| `Winreg.SplitTerminatedOfTerminated` | vm/src/stdlib/winreg.rs:317-334 | NUL-terminated NUL-free strings split back into the same strings. |
| `Winreg.RegToPyCorrectedSpec` | vm/src/stdlib/winreg.rs:277-334 | With both slips corrected, every list in the standard layout reads back as itself, and a wrong length names its type. The other types decode as before. |
| `Winreg.PyHkey.Close` | vm/src/stdlib/winreg.rs:90-94 | The key becomes the null handle, so `__bool__` is false, and the old key is dropped. |
| `Winreg.PyHkey.Detach` | vm/src/stdlib/winreg.rs:96-102 | The old handle is returned without being dropped, and the key becomes the null handle. |
| `Winreg.PyHkey.Exit` | vm/src/stdlib/winreg.rs:113-115 | The same as `Close`. |
| `Winreg.OpenKey` | vm/src/stdlib/winreg.rs:149-179 | A nonzero `reserved` is "reserved param must be 0" and the registry is not called. Otherwise a missing subkey is `""`, the registry is asked once, and its error or the new handle object is the result. `reserved` defaults to 0 and `access` to `KEY_READ`. |
| `Winreg.SetValue` | vm/src/stdlib/winreg.rs:256-269 | A type other than `REG_SZ` is "type must be winreg.REG_SZ" and the registry is not called. Otherwise the registry is asked once and its error, if any, propagates. |
| `Winreg.CloseKey` | vm/src/stdlib/winreg.rs:234-239 | A handle object is closed; a bare handle is dropped. |

## Left out

- The frame's execution (`resume`, `gen_throw`, `with_frame`) is not modelled. A frame replays a fixed behaviour function of its run count, how it is entered, and the current exception.
- `normalize_exception` is not modelled; it is a function the `Vm` holds.
- `push_exception` and `pop_exception` operate on the `Vm.stack` sequence.
- The atomic cells of `Coro` are plain fields; concurrent access is not modelled.
- The body of a frame run may call back into its own object (`Reentry`) at most once per run. That call is made after the run's outcome is chosen; only its effect on `closed` and its failure are observed.
- The introspection getters `running`, `closed`, `frame` and `name` are the fields themselves.
- `gen_name`'s class test is the `Kind` of the object; `is_gen_exit`'s subclass test is the `GeneratorExit` exception kind.
- `Coroutines.Coro.Repr` has no contract of its own; its hexadecimal part is stated by `HexRoundTrip`.
- The OpenSSL library is not modelled: building the context, SNI and verification parameters, handshakes, reads and writes, and the `RAND_bytes` call itself. `WrapSocketHostname` only returns which settings are made, and the OpenSSL errors those settings can raise are not modelled.
- The text of an `SSLError` built from an OpenSSL error stack (`convert_openssl_error`) is not modelled.
- Whether a host name parses as an IP address is an input to `WrapSocketHostname`.
- `SslContext` holds only the parts of the policy. The remaining context settings, and the other methods of `_SSLContext` and `_SSLSocket`, are left out.
- The registry calls of the `winreg` crate are the answers of a fixed function, recorded in `Registry`. What dropping a `RegKey` does to the registry, for example skipping predefined keys, belongs to the crate and is not modelled.
- The other `winreg` functions (`QueryValue`, `QueryValueEx`, `EnumKey`, `EnumValue`, `CreateKey`, `DeleteKey`, `ConnectRegistry`) are not part of this model.
- `__enter__` returns the object itself and has nothing to model.
- Converting a Python object to a key argument (`Hkey::try_from_object`) is left out; `Hkey` is built with the handle directly.
- `String::from_utf16_lossy` is not modelled; decoded strings stay as their UTF-16 code units.
- The alignment assertion in `bytes_to_wide` is not modelled; the buffer is taken to be aligned.
- The native byte order is taken to be little-endian, as on every Windows target.
- `Lib/test/test_faulthandler.py`, `extra_tests/snippets/stdlib_random.py` and `derive-impl/src/pypayload.rs` are not part of this model.

## Findings

| source | as written | input that shows it | evidently intended | confidence | as-written member | corrected member |
|---|---|---|---|---|---|---|
| vm/src/stdlib/winreg.rs:284 | The wrong-length message is built with `stringify!(name)`, which yields the literal word `name`. The `REG_QWORD` arm at line 304 also passes `REG_DWORD` as the name. | `REG_DWORD` or `REG_QWORD` data of 3 bytes | The message names the value type, e.g. "REG_QWORD value is wrong length" | not executed | `Winreg.WrongLengthMessageIsLiteral` | `Winreg.RegToPyCorrectedSpec` |
| vm/src/stdlib/winreg.rs:323-332 | Only one trailing NUL is dropped before splitting, so the standard double-NUL terminator leaves an empty last string. | `REG_MULTI_SZ` units `a\0b\0\0` give `["a", "b", ""]` | `["a", "b"]`, reading the data as NUL-terminated strings | not executed | `Winreg.MultiSzGainsEmptyString` | `Winreg.RegToPyCorrectedSpec` |

`Winreg.RegToPy` itself follows the code as written; `Winreg.RegToPyCorrected` is the corrected decoder.
