# SniHandler: server-name sniffing and context selection

This project models Netty's `SniHandler`. The handler looks at the first bytes
of a connection. It extracts the host name from the server_name extension of a
TLS ClientHello without consuming any bytes. It then asks a mapping for the
`SslContext` of that host name. Once a context is selected and detection is
final, it gives the connection to an `SslHandler`.

The project has two modules.

- `ClientHello` (`client_hello.dfy`) is the extractor `sniHostNameFromHandshakeInfo`.
  - The buffer is a `seq<byte>` of exactly the readable bytes, with the reader
    index at 0.
  - `GetUnsignedByte` and `GetUnsignedShort` are the absolute `ByteBuf` reads.
    A read outside the buffer is the source's `catch` path.
  - `Extract` is the specification. It returns an `Extraction` saying why the
    extractor stopped, and with which host name. It reads the record header,
    locates the extension list with `ExtensionsBlock`, and hands that list to
    the recursive function `Extensions`.
  - `Reaches(buf, offset, limit, p)` says that the extension scan, started at
    `offset`, arrives at an extension header at `p`. Every extension it passes
    lies before `limit` and has a readable length and a readable non-zero type.
  - The method `SniHostNameFromHandshakeInfo` follows the Java loop over a
    mutable `offset`, with the extension loop in `ScanExtensions`. It is proved
    to return `Extract(buf).Host()` and the new value of `handshaken`.
  - The record header is section 6.2.1 of RFC 5246. The ClientHello layout is
    section 7.4.1.2 of RFC 5246, and extensions are section 7.4.1.4. The
    server_name extension is section 3 of RFC 6066.
- `Sni` (`sni_handler.dfy`) is the read gate and the lookup state machine.
  - The class `SniHandler` has the fields `suppressRead`, `readPending`,
    `handshaken`, `hostname` and `selectedContext`.
  - Its methods are `Decode`, `SelectContext`, `Read` and `Complete`.
    `Complete` is the anonymous completion listener.
  - Each method is specified by a pure step function over a `State` snapshot.
    Decode uses `DecodeStep`, Read uses `ReadStep` and Complete uses
    `CompleteStep`.
  - Two ghost fields track the rest of the state. `listeners` counts the
    registered listeners that have not run yet. `trace` records what the
    handler did to its channel: `LookupStarted`, `ReadForwarded`,
    `PipelineReplaced`, `DecodeFailed` (decode throws) and `ExceptionFired`.
  - `Decode` takes the mapping's answer as a parameter: a function from the
    lookup key to `Done(result)` or `Pending`. `Adapter` is
    `AsyncMappingAdapter`.
  - The getters `hostname()` and `sslContext()` are the class functions
    `Hostname` and `Context`, which read the fields `hostname` and
    `selectedContext`.

Behaviour of the code that the model keeps:

- The code calls the mapping once for each `decode` call, as long as
  `handshaken` is false and at least 5 bytes are readable. This includes
  incomplete records and pass-through content types, for which the key is
  None. Nothing limits this to one lookup per connection. So several lookups
  can be outstanding at once, `selectedContext` can be overwritten, and more
  than one pipeline replacement can be requested. `RepeatedLookups` proves
  this.
- The extractor has no "fewer than 5 bytes" case of its own. That gate is in
  `decode`. A shorter buffer given to the extractor never yields a host name.
  A pass-through content type leaves `handshaken` alone. Every other short
  buffer sets it. It does so through the not-TLS branch (for example `[99]`),
  the unsupported-version branch (for example `[22, 2]`), or the exception
  path when the version or length bytes are missing (for example `[22]`).
  `ShortBuffer` proves this.
- A lookup that has already failed leads to a throw from `decode`
  (`DecodeFailed`). A lookup that fails later leads to `fireExceptionCaught`
  (`ExceptionFired`). The model keeps these two events apart.

## Model

| member | source | states |
|---|---|---|
| `ClientHello.SniHostNameFromHandshakeInfo` | handler/src/main/java/io/netty/handler/ssl/SniHandler.java:152-238 | The loop-based extractor returns exactly the host name that the extraction specification gives. The new `handshaken` is the old one or-ed with "detection is final", so it is never reset. |
| `ClientHello.ScanExtensions` | handler/src/main/java/io/netty/handler/ssl/SniHandler.java:196-221 | The `while (offset < extensionsLimit)` loop returns the host name that the extension-scan specification gives, and it always makes detection final. |
| `ClientHello.GetUnsignedShort` | handler/src/main/java/io/netty/handler/ssl/SniHandler.java:176 | A 16-bit read succeeds exactly when both bytes are inside the buffer. Its value is an unsigned 16-bit number. |
| `ClientHello.ShortIsBigEndian` | handler/src/main/java/io/netty/handler/ssl/SniHandler.java:176 | A successful 16-bit read is big-endian: the first byte is `value / 256` and the second is `value % 256`. |
| `ClientHello.RecordHeaderOutcomes` | handler/src/main/java/io/netty/handler/ssl/SniHandler.java:155-178 | Each statement is an if-and-only-if. Content types 20, 21 and 23 pass through. Any other non-handshake type is "not TLS". A handshake record whose major version is not 3 is unsupported. A readable count below the declared length plus 5 is incomplete. |
| `ClientHello.FinalExactly` | handler/src/main/java/io/netty/handler/ssl/SniHandler.java:153-237 | The extractor leaves `handshaken` alone exactly for a pass-through content type or an incomplete record. Every other path sets it, the exception path included. |
| `ClientHello.BodyFromBody` | handler/src/main/java/io/netty/handler/ssl/SniHandler.java:181-221 | Walking a complete ClientHello body ends in one of four outcomes: a host name, an unsupported name type, no server_name extension, or the exception path. |
| `ClientHello.ExtensionsFromBody` | handler/src/main/java/io/netty/handler/ssl/SniHandler.java:196-221 | The extension scan terminates with an outcome that makes detection final: a host name, an invalid name type, "no server_name before extensionsLimit", or an out-of-range read. |
| `ClientHello.ExtensionsHostName` | handler/src/main/java/io/netty/handler/ssl/SniHandler.java:196-214 | A host name found by the scan comes from a server_name extension whose header the scan reaches before `extensionsLimit`. Every extension passed on the way has a non-zero type. The extension's type is 0 and its name type is 0. The name is exactly the bytes `[data+5, data+5+len)`, where `len` is the 16-bit value at `data+3`, and those bytes lie inside the buffer. |
| `ClientHello.HostNameLocation` | handler/src/main/java/io/netty/handler/ssl/SniHandler.java:171-214 | A host name is returned only for a complete handshake record of major version 3 whose extension list can be located. It is the host_name entry of the first type-0 extension that the scan of that list reaches, and it lies inside the buffer. |
| `ClientHello.ReachedServerName` | handler/src/main/java/io/netty/handler/ssl/SniHandler.java:196-214 | The converse. Once the scan reaches a readable type-0 extension before `extensionsLimit`, its first entry decides the outcome. A host_name entry inside the buffer is returned as exactly its declared bytes. Any other name type yields no host name. |
| `ClientHello.NoServerNameChain` | handler/src/main/java/io/netty/handler/ssl/SniHandler.java:196-221 | A scan that ends without a server name went through a chain of readable, non-zero-type extensions that reaches `extensionsLimit` or beyond. |
| `ClientHello.ChainNoServerName` | handler/src/main/java/io/netty/handler/ssl/SniHandler.java:196-221 | Such a chain makes the scan end without a server name. |
| `ClientHello.NoServerNameExactly` | handler/src/main/java/io/netty/handler/ssl/SniHandler.java:196-221 | Both directions as one if-and-only-if: no server name exactly when such a chain leaves the extension list. |
| `ClientHello.ShortBuffer` | handler/src/main/java/io/netty/handler/ssl/SniHandler.java:153-178 | A buffer shorter than a record header never yields a host name. It leaves `handshaken` alone exactly when it starts with a pass-through content type. |
| `ClientHello.ExampleBlock` | handler/src/main/java/io/netty/handler/ssl/SniHandler.java:181-196 | In the concrete example, skipping the session id, cipher suites and compression methods places the extension list at bytes 52 to 72. |
| `ClientHello.ExampleHostName` | handler/src/main/java/io/netty/handler/ssl/SniHandler.java:181-210 | For a concrete ClientHello carrying "Example.COM", the extractor returns those bytes unchanged. |
| `ClientHello.ExampleHeaders` | handler/src/main/java/io/netty/handler/ssl/SniHandler.java:158-236 | Concrete header cases. A handshake header of length 0 passes the completeness test and then takes the exception path. Application data passes through. A declared length beyond the buffer is incomplete. |
| `Sni.SniHandler.constructor` | handler/src/main/java/io/netty/handler/ssl/SniHandler.java:55-59 | A new handler has every flag false, no host name, no context, no listener and an empty trace. |
| `Sni.SniHandler.Decode` | handler/src/main/java/io/netty/handler/ssl/SniHandler.java:108-142 | decode moves the snapshot by DecodeStep and keeps the invariant. It throws exactly when the mapping's future has already failed. |
| `Sni.SniHandler.SelectContext` | handler/src/main/java/io/netty/handler/ssl/SniHandler.java:144-150 | selectContext stores the context. It replaces the pipeline handler only when `handshaken` is true. |
| `Sni.SniHandler.Read` | handler/src/main/java/io/netty/handler/ssl/SniHandler.java:267-273 | read moves the snapshot by ReadStep and keeps the invariant. |
| `Sni.SniHandler.Complete` | handler/src/main/java/io/netty/handler/ssl/SniHandler.java:126-138 | The listener first clears `suppressRead`. It then selects the context or fires an exception. Finally, if a read is pending, it clears `readPending` and forwards one read. |
| `Sni.Adapter` | handler/src/main/java/io/netty/handler/ssl/SniHandler.java:293-301 | Every future that AsyncMappingAdapter returns is already done. It carries the synchronous mapping's answer, and a throw becomes a failure. |
| `Sni.StepsPreserveInv` | handler/src/main/java/io/netty/handler/ssl/SniHandler.java:108-150 | Every step keeps three facts: a deferred read implies reads are suppressed, suppression implies an outstanding listener, and a replacement implies `handshaken`. No step resets `handshaken`. |
| `Sni.DecodeAppendsLookup` | handler/src/main/java/io/netty/handler/ssl/SniHandler.java:109-125 | An open-gate decode puts its one `LookupStarted` right after the old trace, and it adds no other lookup event. |
| `Sni.DecodeLooksUpOnce` | handler/src/main/java/io/netty/handler/ssl/SniHandler.java:109-116 | decode has no effect when `handshaken` is true or fewer than 5 bytes are readable. Otherwise it makes exactly one lookup, keyed by the normalised extracted host name. It stores that name as `hostname`, which is present exactly when a host name was extracted, and sets `handshaken` to "detection final". |
| `Sni.SynchronousLookup` | handler/src/main/java/io/netty/handler/ssl/SniHandler.java:116-148 | When the future is done at once, the read flags and listeners stay as they were. Success selects the context and adds exactly one pipeline replacement when detection is final, and none otherwise. Failure throws, selects nothing and replaces nothing. |
| `Sni.SyncHandoff` | handler/src/main/java/io/netty/handler/ssl/SniHandler.java:109-148 | With a synchronous mapping wrapped by AsyncMappingAdapter, a fresh handler that decodes a final ClientHello whose key maps to a context records exactly the lookup and then the replacement with that context. Reads stay unsuppressed. |
| `Sni.AdapterNeverSuppresses` | handler/src/main/java/io/netty/handler/ssl/SniHandler.java:293-301 | With AsyncMappingAdapter, decode never sets `suppressRead` and never registers a listener. |
| `Sni.PendingLookup` | handler/src/main/java/io/netty/handler/ssl/SniHandler.java:123-125 | A pending future sets `suppressRead` and registers one listener. It does not throw and selects nothing yet. |
| `Sni.ReadGate` | handler/src/main/java/io/netty/handler/ssl/SniHandler.java:267-273 | A read is forwarded exactly when reads are not suppressed. While suppressed, the request sets `readPending` and nothing is forwarded. |
| `Sni.SuppressedReads` | handler/src/main/java/io/netty/handler/ssl/SniHandler.java:267-270 | Any number of reads while suppressed forward nothing. They only set `readPending`. |
| `Sni.SuspensionWindow` | handler/src/main/java/io/netty/handler/ssl/SniHandler.java:127-137 | After suppression, n reads and then completion, exactly one read is forwarded if any was deferred, and it comes last. One replacement happens exactly on success when `handshaken` is true. One exception is fired exactly on failure. |
| `Sni.AsyncHandoff` | handler/src/main/java/io/netty/handler/ssl/SniHandler.java:108-150 | Take a ClientHello with a host name, a pending lookup, n reads and then success. The trace is: the lookup, the replacement, and then at most one read. |
| `Sni.RepeatedLookups` | handler/src/main/java/io/netty/handler/ssl/SniHandler.java:109-125 | An incomplete record followed by a complete one starts two lookups. If both are pending, both completions request a pipeline replacement. |

## Left out

- Normalisation covers the UTF-8 decoding of `in.toString`, `IDN.toASCII(..., ALLOW_UNASSIGNED)` and `toLowerCase(Locale.US)`. The model treats all three as one opaque function `normalize`, given to the handler at construction, because they are JDK calls. Exceptions from `IDN.toASCII` are not modelled, so decode always goes on to the lookup. Idempotence of normalisation is not stated.
- `ByteBuf.get*` checks bounds against the buffer's capacity, not its readable region. The model assumes that the buffer is exactly the readable bytes, starting at reader index 0, and that any read past it takes the exception path.
- Offsets are unbounded integers. A 32-bit overflow of `offset` would need a buffer of nearly 2^31 bytes, so it is not modelled.
- `SslConstants.java` is not part of this model. The content-type values 20, 21, 22 and 23 come from section 6.2.1 of RFC 5246.
- Futures, promises, executors, listener registration and `volatile` visibility are replaced by sequential event methods: a `Reply` parameter to Decode, and Complete. All listeners are identical, so they are only counted.
- A mapping that returns a null context is not modelled. The model's contexts are never null, so the NullPointerException that `newHandler` would throw is left out.
- Pipeline replacement and `SslContext.newHandler` are recorded as a `PipelineReplaced` event only. The model keeps delivering events to the handler after that point. In the real pipeline the handler has been removed, and a second `replace` would throw.
- `ByteToMessageDecoder`'s cumulation and decode loop are not modelled. Decode receives the readable bytes and produces no output. A `DecoderException` thrown from decode is reported as `thrown`, and what the pipeline does with it is not modelled.
- Logging and `hexDump` on the exception path are diagnostics.
- The outbound methods `bind`, `connect`, `disconnect`, `close`, `deregister`, `write` and `flush` only delegate to the transport.
- The constructors' `checkNotNull` wiring and the `Mapping`/`DomainNameMapping` overloads are construction plumbing.
