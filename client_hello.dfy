/** The ClientHello server-name extractor of SniHandler.

    The extractor peeks at the readable bytes of the inbound buffer at fixed
    offsets (it never moves the reader index) and walks three nested,
    length-prefixed layers:
      - the TLS record header: content type, version, 16-bit length
        (section 6.2.1 of RFC 5246);
      - the fixed part of the ClientHello and its session id, cipher suites and
        compression methods (section 7.4.1.2 of RFC 5246);
      - the extension list, a sequence of type/length/data entries
        (section 7.4.1.4 of RFC 5246), looking for server_name, type 0, whose
        first entry is taken when it is a host_name (section 3 of RFC 6066).

    The buffer is modelled as exactly the readable bytes, starting at index 0.
    An absolute read outside it is the exception path of the source: the
    extractor gives up on SNI and marks detection final.
 */
module ClientHello {

  datatype Option<T> = None | Some(value: T)

  /** An unsigned byte, as ByteBuf.getUnsignedByte delivers it. */
  type byte = b: int | 0 <= b < 256

  // TLS record content types (section 6.2.1 of RFC 5246).
  const ChangeCipherSpec := 20
  const Alert := 21
  const Handshake := 22
  const ApplicationData := 23

  /** Length of the TLS record header: type (1), version (2), length (2). */
  const RecordHeaderLength := 5

  /** Offset of the session-id length byte: record header (5), handshake type
      and length (4), client version (2), random (32). */
  const SessionIdOffset := 43

  /** ByteBuf.getUnsignedByte at an absolute index; None is the index check failing. */
  function GetUnsignedByte(buf: seq<byte>, index: int): Option<int>
  {
    if 0 <= index < |buf| then Some(buf[index]) else None
  }

  /** ByteBuf.getUnsignedShort (big-endian) at an absolute index. */
  function GetUnsignedShort(buf: seq<byte>, index: int): (r: Option<int>)
    ensures r.Some? <==> 0 <= index && index + 2 <= |buf|
    ensures r.Some? ==> 0 <= r.value < 0x1_0000
  {
    if 0 <= index && index + 2 <= |buf| then Some(buf[index] as int * 256 + buf[index + 1] as int) else None
  }

  /** A 16-bit read is big-endian: the first byte is the high byte. */
  lemma ShortIsBigEndian(buf: seq<byte>, index: int)
    requires GetUnsignedShort(buf, index).Some?
    ensures GetUnsignedShort(buf, index).value / 256 == buf[index]
    ensures GetUnsignedShort(buf, index).value % 256 == buf[index + 1]
  {
  }

  /** Why the extractor stopped, and with what. */
  datatype Extraction =
    | NotHandshake          // change_cipher_spec, alert or application_data: try again later
    | NotTls                // any other content type: not TLS, do not try SNI
    | UnsupportedVersion    // a handshake record whose major version is not 3
    | Incomplete            // the record is not fully buffered yet
    | Malformed             // a read fell outside the buffer (the catch path)
    | NoServerName          // the extension list ended without a server_name
    | UnsupportedNameType   // the server_name entry is not a host_name
    | HostName(name: seq<byte>)
  {
    /** What the extractor returns; None stands for null. */
    function Host(): Option<seq<byte>>
    {
      if HostName? then Some(name) else None
    }

    /** Whether the extractor sets handshaken. */
    predicate Final()
    {
      !NotHandshake? && !Incomplete?
    }

    /** The outcomes that only the walk through the ClientHello body produces. */
    predicate FromBody()
    {
      Malformed? || NoServerName? || UnsupportedNameType? || HostName?
    }
  }

  /** The record length declared in the header, plus the header itself. */
  function PacketLength(buf: seq<byte>): int
    requires |buf| >= RecordHeaderLength
  {
    buf[3] * 256 + buf[4] + RecordHeaderLength
  }

  /** The extractor's outcome for the readable bytes `buf`. */
  function Extract(buf: seq<byte>): Extraction
  {
    var command := GetUnsignedByte(buf, 0);
    if command.None? then Malformed
    else if command.value in {ChangeCipherSpec, Alert, ApplicationData} then NotHandshake
    else if command.value != Handshake then NotTls
    else
      var majorVersion := GetUnsignedByte(buf, 1);
      if majorVersion.None? then Malformed
      else if majorVersion.value != 3 then UnsupportedVersion
      else
        var length := GetUnsignedShort(buf, 3);
        if length.None? then Malformed
        else if |buf| < length.value + RecordHeaderLength then Incomplete
        else ClientHelloBody(buf)
  }

  /** Where the extension list lies: the offset of its first entry and
      `extensionsLimit`, found by skipping the session id, the cipher suites and
      the compression methods; None when one of those reads falls outside. */
  function ExtensionsBlock(buf: seq<byte>): Option<(nat, int)>
  {
    var sessionIdLength := GetUnsignedByte(buf, SessionIdOffset);
    if sessionIdLength.None? then None
    else
      var cipherSuitesAt := SessionIdOffset + sessionIdLength.value + 1;
      var cipherSuitesLength := GetUnsignedShort(buf, cipherSuitesAt);
      if cipherSuitesLength.None? then None
      else
        var compressionAt := cipherSuitesAt + cipherSuitesLength.value + 2;
        var compressionLength := GetUnsignedByte(buf, compressionAt);
        if compressionLength.None? then None
        else
          var extensionsAt := compressionAt + compressionLength.value + 1;
          var extensionsLength := GetUnsignedShort(buf, extensionsAt);
          if extensionsLength.None? then None
          else Some((extensionsAt + 2, extensionsAt + 2 + extensionsLength.value))
  }

  /** The walk through a complete ClientHello: locate the extension list, then scan it. */
  function ClientHelloBody(buf: seq<byte>): Extraction
  {
    match ExtensionsBlock(buf)
    case None => Malformed
    case Some((start, limit)) => Extensions(buf, start, limit)
  }

  /** Scans the extensions from `offset` while `offset < limit`; each step moves
      past a 4-byte type/length prefix and the extension's data. */
  function Extensions(buf: seq<byte>, offset: nat, limit: int): Extraction
    decreases limit - offset
  {
    if offset >= limit then NoServerName
    else
      var extensionType := GetUnsignedShort(buf, offset);
      var extensionLength := GetUnsignedShort(buf, offset + 2);
      if extensionType.None? || extensionLength.None? then Malformed
      else if extensionType.value == 0 then ServerName(buf, offset + 4)
      else Extensions(buf, offset + 4 + extensionLength.value, limit)
  }

  /** Reads the first entry of a server_name extension whose data starts at
      `data`: list length (2), name type (1), name length (2), name. */
  function ServerName(buf: seq<byte>, data: nat): Extraction
  {
    var nameType := GetUnsignedByte(buf, data + 2);
    if nameType.None? then Malformed
    else if nameType.value != 0 then UnsupportedNameType
    else
      var nameLength := GetUnsignedShort(buf, data + 3);
      if nameLength.None? then Malformed
      else if data + 5 + nameLength.value <= |buf| then HostName(buf[data + 5 .. data + 5 + nameLength.value])
      else Malformed
  }

  /** `name` is the host_name entry of a server_name extension whose data
      starts at `data`, and lies inside the buffer. */
  ghost predicate ServerNameAt(buf: seq<byte>, data: int, name: seq<byte>)
  {
    && 4 <= data
    && GetUnsignedShort(buf, data - 4) == Some(0)
    && GetUnsignedByte(buf, data + 2) == Some(0)
    && GetUnsignedShort(buf, data + 3) == Some(|name|)
    && data + 5 + |name| <= |buf|
    && buf[data + 5 .. data + 5 + |name|] == name
  }

  /** The scan starting at `offset` reaches an extension header at `p`: either
      `p` is `offset`, or the extension at `offset` lies before `limit`, has a
      readable non-zero type and a readable length, and the scan reaches `p`
      from the next extension. */
  ghost predicate Reaches(buf: seq<byte>, offset: nat, limit: int, p: nat)
    decreases limit - offset
  {
    || p == offset
    || (&& offset < limit
        && GetUnsignedShort(buf, offset).Some? && GetUnsignedShort(buf, offset).value != 0
        && GetUnsignedShort(buf, offset + 2).Some?
        && Reaches(buf, offset + 4 + GetUnsignedShort(buf, offset + 2).value, limit, p))
  }

  /** The extractor itself: absolute reads only, a mutable offset through the
      extension list, and the new value of the handler's `handshaken` flag. */
  method SniHostNameFromHandshakeInfo(buf: seq<byte>, handshaken: bool)
    returns (hostname: Option<seq<byte>>, handshaken': bool)
    ensures hostname == Extract(buf).Host()
    ensures handshaken' == (handshaken || Extract(buf).Final())
  {
    var command := GetUnsignedByte(buf, 0);
    if command.None? {
      return None, true;
    }
    if command.value in {ChangeCipherSpec, Alert, ApplicationData} {
      return None, handshaken;
    }
    if command.value != Handshake {
      // not TLS or SSLv3: do not try SNI
      return None, true;
    }
    var majorVersion := GetUnsignedByte(buf, 1);
    if majorVersion.None? {
      return None, true;
    }
    if majorVersion.value != 3 {
      return None, true;
    }
    var length := GetUnsignedShort(buf, 3);
    if length.None? {
      return None, true;
    }
    var packetLength := length.value + RecordHeaderLength;
    if |buf| < packetLength {
      // the ClientHello is incomplete
      return None, handshaken;
    }

    var offset: nat := SessionIdOffset;
    var sessionIdLength := GetUnsignedByte(buf, offset);
    if sessionIdLength.None? {
      return None, true;
    }
    offset := offset + sessionIdLength.value + 1;
    var cipherSuitesLength := GetUnsignedShort(buf, offset);
    if cipherSuitesLength.None? {
      return None, true;
    }
    offset := offset + cipherSuitesLength.value + 2;
    var compressionMethodLength := GetUnsignedByte(buf, offset);
    if compressionMethodLength.None? {
      return None, true;
    }
    offset := offset + compressionMethodLength.value + 1;
    var extensionsLength := GetUnsignedShort(buf, offset);
    if extensionsLength.None? {
      return None, true;
    }
    offset := offset + 2;
    var extensionsLimit := offset + extensionsLength.value;
    assert ExtensionsBlock(buf) == Some((offset, extensionsLimit));
    assert Extract(buf) == Extensions(buf, offset, extensionsLimit);
    ExtensionsFromBody(buf, offset, extensionsLimit);
    hostname, handshaken' := ScanExtensions(buf, offset, extensionsLimit);
  }

  /** The `while (offset < extensionsLimit)` loop of the extractor: returns the
      host name found and whether detection is final, which it always is. */
  method ScanExtensions(buf: seq<byte>, start: nat, extensionsLimit: int)
    returns (hostname: Option<seq<byte>>, handshaken': bool)
    ensures hostname == Extensions(buf, start, extensionsLimit).Host()
    ensures handshaken'
  {
    var offset: nat := start;
    while offset < extensionsLimit
      invariant Extensions(buf, offset, extensionsLimit) == Extensions(buf, start, extensionsLimit)
      decreases extensionsLimit - offset
    {
      var extensionType := GetUnsignedShort(buf, offset);
      if extensionType.None? {
        return None, true;
      }
      offset := offset + 2;
      var extensionLength := GetUnsignedShort(buf, offset);
      if extensionLength.None? {
        return None, true;
      }
      offset := offset + 2;
      if extensionType.value == 0 {
        var serverNameType := GetUnsignedByte(buf, offset + 2);
        if serverNameType.None? {
          return None, true;
        }
        if serverNameType.value != 0 {
          // invalid name type
          return None, true;
        }
        var serverNameLength := GetUnsignedShort(buf, offset + 3);
        if serverNameLength.None? || offset + 5 + serverNameLength.value > |buf| {
          return None, true;
        }
        return Some(buf[offset + 5 .. offset + 5 + serverNameLength.value]), true;
      }
      offset := offset + extensionLength.value;
    }
    return None, true;
  }

  /** The extension scan only ever ends in one of the body outcomes. */
  lemma {:induction false} ExtensionsFromBody(buf: seq<byte>, offset: nat, limit: int)
    ensures Extensions(buf, offset, limit).FromBody()
    decreases limit - offset
  {
    if offset < limit {
      var extensionType := GetUnsignedShort(buf, offset);
      var extensionLength := GetUnsignedShort(buf, offset + 2);
      if extensionType.Some? && extensionLength.Some? && extensionType.value != 0 {
        ExtensionsFromBody(buf, offset + 4 + extensionLength.value, limit);
      }
    }
  }

  /** The record header alone decides the pass-through, not-TLS, bad-version and
      incomplete outcomes, in both directions. */
  lemma RecordHeaderOutcomes(buf: seq<byte>)
    ensures Extract(buf) == NotHandshake
        <==> |buf| >= 1 && buf[0] in {ChangeCipherSpec, Alert, ApplicationData}
    ensures Extract(buf) == NotTls
        <==> |buf| >= 1 && buf[0] !in {ChangeCipherSpec, Alert, Handshake, ApplicationData}
    ensures Extract(buf) == UnsupportedVersion
        <==> |buf| >= 2 && buf[0] == Handshake && buf[1] != 3
    ensures Extract(buf) == Incomplete
        <==> |buf| >= RecordHeaderLength && buf[0] == Handshake && buf[1] == 3
             && |buf| < PacketLength(buf)
  {
    if |buf| >= RecordHeaderLength && buf[0] == Handshake && buf[1] == 3 && |buf| >= PacketLength(buf) {
      BodyFromBody(buf);
    }
  }

  /** The walk through the ClientHello body only ends in a body outcome. */
  lemma BodyFromBody(buf: seq<byte>)
    ensures ClientHelloBody(buf).FromBody()
  {
    match ExtensionsBlock(buf)
    case None =>
    case Some((start, limit)) => ExtensionsFromBody(buf, start, limit);
  }

  /** The extractor leaves `handshaken` alone exactly for a pass-through content
      type and for an incomplete record; in every other case, the catch path
      included, detection becomes final. */
  lemma FinalExactly(buf: seq<byte>)
    ensures !Extract(buf).Final()
        <==> (|buf| >= 1 && buf[0] in {ChangeCipherSpec, Alert, ApplicationData})
             || (|buf| >= RecordHeaderLength && buf[0] == Handshake && buf[1] == 3
                 && |buf| < PacketLength(buf))
  {
    RecordHeaderOutcomes(buf);
  }

  /** A host name found by the scan is the host_name entry of a server_name
      extension whose header the scan reached before `limit`, every extension
      before it having a non-zero type; the name lies inside the buffer. */
  lemma {:induction false} ExtensionsHostName(buf: seq<byte>, offset: nat, limit: int, name: seq<byte>)
    returns (data: nat)
    requires Extensions(buf, offset, limit) == HostName(name)
    ensures data >= 4 && Reaches(buf, offset, limit, data - 4) && data - 4 < limit
    ensures ServerNameAt(buf, data, name)
    decreases limit - offset
  {
    var extensionType := GetUnsignedShort(buf, offset);
    var extensionLength := GetUnsignedShort(buf, offset + 2);
    if extensionType.value == 0 {
      data := offset + 4;
    } else {
      data := ExtensionsHostName(buf, offset + 4 + extensionLength.value, limit, name);
    }
  }

  /** A host name is only returned for a complete handshake record of major
      version 3, and it is the host_name entry of the first server_name
      extension of the extension list. */
  lemma HostNameLocation(buf: seq<byte>, name: seq<byte>) returns (data: nat)
    requires Extract(buf) == HostName(name)
    ensures |buf| >= RecordHeaderLength && buf[0] == Handshake && buf[1] == 3
    ensures |buf| >= PacketLength(buf)
    ensures ExtensionsBlock(buf).Some?
    ensures var (start, limit) := ExtensionsBlock(buf).value;
      data >= 4 && Reaches(buf, start, limit, data - 4) && data - 4 < limit
    ensures ServerNameAt(buf, data, name)
  {
    var (start, limit) := ExtensionsBlock(buf).value;
    data := ExtensionsHostName(buf, start, limit, name);
  }

  /** The converse: once the scan reaches a server_name extension before
      `limit` whose type and length are readable, its first entry decides the
      outcome. A host_name entry inside the buffer is returned as exactly the
      bytes `[p+9, p+9+len)`, `len` being the 16-bit value at `p+7`; any other
      name type yields no host name. */
  lemma {:induction false} ReachedServerName(buf: seq<byte>, offset: nat, limit: int, p: nat)
    requires Reaches(buf, offset, limit, p) && p < limit
    requires GetUnsignedShort(buf, p) == Some(0) && GetUnsignedShort(buf, p + 2).Some?
    ensures Extensions(buf, offset, limit) == ServerName(buf, p + 4)
    ensures GetUnsignedByte(buf, p + 6).Some? && GetUnsignedByte(buf, p + 6).value != 0
            ==> Extensions(buf, offset, limit) == UnsupportedNameType
    ensures GetUnsignedByte(buf, p + 6) == Some(0) && GetUnsignedShort(buf, p + 7).Some?
            && p + 9 + GetUnsignedShort(buf, p + 7).value <= |buf|
            ==> Extensions(buf, offset, limit) == HostName(buf[p + 9 .. p + 9 + GetUnsignedShort(buf, p + 7).value])
    decreases limit - offset
  {
    if p != offset {
      var extensionLength := GetUnsignedShort(buf, offset + 2);
      ReachedServerName(buf, offset + 4 + extensionLength.value, limit, p);
    }
  }

  /** A scan that ends without a server name went through a chain of
      extensions, all readable and of non-zero type, that leaves
      `[offset, limit)`; the returned `p` is where that chain ends. */
  lemma {:induction false} NoServerNameChain(buf: seq<byte>, offset: nat, limit: int) returns (p: nat)
    requires Extensions(buf, offset, limit) == NoServerName
    ensures p >= limit && Reaches(buf, offset, limit, p)
    decreases limit - offset
  {
    if offset >= limit {
      p := offset;
    } else {
      var extensionLength := GetUnsignedShort(buf, offset + 2);
      p := NoServerNameChain(buf, offset + 4 + extensionLength.value, limit);
    }
  }

  /** Conversely, a chain of readable non-zero-type extensions that leaves
      `[offset, limit)` makes the scan end without a server name. */
  lemma {:induction false} ChainNoServerName(buf: seq<byte>, offset: nat, limit: int, p: nat)
    requires p >= limit && Reaches(buf, offset, limit, p)
    ensures Extensions(buf, offset, limit) == NoServerName
    decreases limit - offset
  {
    if offset < limit {
      var extensionLength := GetUnsignedShort(buf, offset + 2);
      ChainNoServerName(buf, offset + 4 + extensionLength.value, limit, p);
    }
  }

  /** Both directions together. */
  lemma NoServerNameExactly(buf: seq<byte>, offset: nat, limit: int)
    ensures Extensions(buf, offset, limit) == NoServerName
        <==> exists p: nat :: p >= limit && Reaches(buf, offset, limit, p)
  {
    if Extensions(buf, offset, limit) == NoServerName {
      var p := NoServerNameChain(buf, offset, limit);
      assert exists q: nat :: q >= limit && Reaches(buf, offset, limit, q);
    }
    forall p: nat | p >= limit && Reaches(buf, offset, limit, p)
      ensures Extensions(buf, offset, limit) == NoServerName
    {
      ChainNoServerName(buf, offset, limit, p);
    }
  }

  /** With fewer bytes than a record header the extractor never finds a host
      name; it leaves `handshaken` alone only for a pass-through content type. */
  lemma ShortBuffer(buf: seq<byte>)
    requires |buf| < RecordHeaderLength
    ensures Extract(buf).Host() == None
    ensures !Extract(buf).Final() <==> |buf| >= 1 && buf[0] in {ChangeCipherSpec, Alert, ApplicationData}
  {
  }

  /** Padding of `n` zero bytes. */
  function Zeros(n: nat): (r: seq<byte>)
    ensures |r| == n
  {
    seq(n, _ => 0)
  }

  /** A ClientHello carrying one server_name extension with host name
      "Example.COM", as in a TLS 1.2 handshake. */
  function ExampleHello(): seq<byte>
  {
    var name: seq<byte> := [69, 120, 97, 109, 112, 108, 101, 46, 67, 79, 77];
    var sni := [0, 0, 0, 16, 0, 14, 0, 0, 11] + name;
    [Handshake, 3, 1, 0, 67]
    + [1, 0, 0, 63, 3, 3] + Zeros(32)    // handshake header, version, random
    + [0]                                // session id
    + [0, 2, 0x13, 0x01]                 // one cipher suite
    + [1, 0]                             // null compression
    + [0, 20] + sni                      // extensions
  }

  /** In the example, the extension list occupies bytes 52 to 72. */
  lemma ExampleBlock()
    ensures |ExampleHello()| == 72
    ensures ExtensionsBlock(ExampleHello()) == Some((52, 72))
  {
    var buf := ExampleHello();
    assert buf[43..52] == [0, 0, 2, 0x13, 0x01, 1, 0, 0, 20];
  }

  /** Worked example: the SNI host name of a well-formed ClientHello is
      returned as it was sent, before normalisation. */
  lemma ExampleHostName()
    ensures Extract(ExampleHello()) == HostName([69, 120, 97, 109, 112, 108, 101, 46, 67, 79, 77])
  {
    var buf := ExampleHello();
    var name: seq<byte> := [69, 120, 97, 109, 112, 108, 101, 46, 67, 79, 77];
    ExampleBlock();
    assert buf[..5] == [Handshake, 3, 1, 0, 67];
    assert buf[0] == Handshake && buf[1] == 3 && buf[3] == 0 && buf[4] == 67;
    assert buf[52..61] == [0, 0, 0, 16, 0, 14, 0, 0, 11];
    assert buf[61..] == name;
    assert Extensions(buf, 52, 72) == ServerName(buf, 56);
  }

  /** Worked examples of the header outcomes: a bare handshake record header
      with length 0 passes the completeness test and then falls off the buffer,
      application data passes through, a declared length beyond the buffer is
      incomplete. */
  lemma ExampleHeaders()
    ensures Extract([Handshake, 3, 1, 0, 0]) == Malformed
    ensures Extract([ApplicationData, 3, 3, 0, 0]) == NotHandshake
    ensures Extract([Handshake, 3, 1, 0, 1]) == Incomplete
  {
  }
}
