/** Finding the server name in the first bytes of a TLS connection: section 3 of RFC 6066, and the
    ClientHello of sections 4.1.2 and 5.1 of RFC 8446. */
module TlsSni {
  import opened Prelude
  import opened Utf8

  // ---- what the bytes mean ----

  function Be16(hi: Octet, lo: Octet): nat {
    hi * 256 + lo
  }

  function Be24(hi: Octet, mid: Octet, lo: Octet): nat {
    Be16(hi, mid) * 256 + lo
  }

  /** A vector with a one-byte length, and what follows it. */
  function Vector8(bs: seq<Octet>): Option<(seq<Octet>, seq<Octet>)> {
    if |bs| < 1 then None
    else
      var n: nat := bs[0];
      if |bs| < 1 + n then None else Some((bs[1..1 + n], bs[1 + n..]))
  }

  /** A vector with a two-byte length, and what follows it. */
  function Vector16(bs: seq<Octet>): Option<(seq<Octet>, seq<Octet>)> {
    if |bs| < 2 then None
    else
      var n := Be16(bs[0], bs[1]);
      if |bs| < 2 + n then None else Some((bs[2..2 + n], bs[2 + n..]))
  }

  /** The body of the ClientHello that opens the handshake bytes `r`. */
  function HandshakeBody(r: seq<Octet>): Option<seq<Octet>> {
    if |r| < 4 || r[0] != 1 then None
    else
      var n := Be24(r[1], r[2], r[3]);
      if 4 + n > |r| then None else Some(r[4..4 + n])
  }

  /** The body of the ClientHello that opens `payload`. */
  function HelloBody(payload: seq<Octet>): Option<seq<Octet>> {
    if |payload| < 5 || payload[0] != 22 then None
    else
      var record := Vector16(payload[3..]);
      if record.None? then None else HandshakeBody(record.value.0)
  }

  /** What follows the version, random, session id, cipher suites and compression methods of a body. */
  function AfterFixedPart(body: seq<Octet>): Option<seq<Octet>> {
    if |body| < 34 then None
    else
      var session := Vector8(body[34..]);
      if session.None? then None
      else
        var suites := Vector16(session.value.1);
        if suites.None? then None
        else
          var compression := Vector8(suites.value.1);
          if compression.None? then None else Some(compression.value.1)
  }

  /** The extension block of a ClientHello body. */
  function Extensions(body: seq<Octet>): Option<seq<Octet>> {
    var rest := AfterFixedPart(body);
    if rest.None? then None
    else
      var extensions := Vector16(rest.value);
      if extensions.None? then None else Some(extensions.value.0)
  }

  /** The data of the first server_name extension. */
  function FirstServerNameData(exts: seq<Octet>): Option<seq<Octet>>
    decreases |exts|
  {
    if |exts| < 4 then None
    else
      var ext := Vector16(exts[2..]);
      if ext.None? then None
      else if Be16(exts[0], exts[1]) == 0 then Some(ext.value.0)
      else FirstServerNameData(ext.value.1)
  }

  /** The bytes of the first name of type host_name. */
  function FirstHostBytes(names: seq<Octet>): Option<seq<Octet>>
    decreases |names|
  {
    if |names| < 3 then None
    else
      var name := Vector16(names[1..]);
      if name.None? then None
      else if names[0] == 0 then Some(name.value.0)
      else FirstHostBytes(name.value.1)
  }

  /** The host name bytes in the data of a server_name extension. */
  function HostBytes(data: seq<Octet>): Option<seq<Octet>> {
    var list := Vector16(data);
    if list.None? then None else FirstHostBytes(list.value.0)
  }

  /** The server name announced at the start of `payload`. */
  function ClientHelloSni(payload: seq<Octet>): Option<seq<Scalar>> {
    var body := HelloBody(payload);
    if body.None? then None
    else
      var exts := Extensions(body.value);
      if exts.None? then None
      else
        var data := FirstServerNameData(exts.value);
        if data.None? then None
        else
          var host := HostBytes(data.value);
          if host.None? then None else NormalizeName(host.value)
  }

  // ---- the cursor parser ----

  lemma SubSlice<T>(s: seq<T>, a: nat, b: nat, c: nat, d: nat)
    requires a <= b <= |s| && c <= d <= b - a
    ensures s[a..b][c..d] == s[a + c..a + d]
    ensures s[a..b][c..] == s[a + c..b]
  {
    assert forall i | c <= i < d :: s[a..b][i] == s[a + i];
  }

  /** Reading a vector at cursor `p` of a region that stops at `end`. */
  lemma Vector8At(bs: seq<Octet>, p: nat, end: nat)
    requires p < end <= |bs|
    ensures var n: nat := bs[p];
            Vector8(bs[p..end]) == if p + 1 + n > end then None
                                   else Some((bs[p + 1..p + 1 + n], bs[p + 1 + n..end]))
  {
    var n: nat := bs[p];
    if p + 1 + n <= end {
      SubSlice(bs, p, end, 1, 1 + n);
      SubSlice(bs, p, end, 1 + n, 1 + n);
    }
  }

  lemma Vector16At(bs: seq<Octet>, p: nat, end: nat)
    requires p + 2 <= end <= |bs|
    ensures var n := Be16(bs[p], bs[p + 1]);
            Vector16(bs[p..end]) == if p + 2 + n > end then None
                                    else Some((bs[p + 2..p + 2 + n], bs[p + 2 + n..end]))
  {
    var n := Be16(bs[p], bs[p + 1]);
    if p + 2 + n <= end {
      SubSlice(bs, p, end, 2, 2 + n);
      SubSlice(bs, p, end, 2 + n, 2 + n);
    }
  }

  /** Scans the names between `start` and `end`. */
  method ScanNames(payload: seq<Octet>, start: nat, end: nat) returns (host: Option<seq<Octet>>)
    requires start <= end <= |payload|
    ensures host == FirstHostBytes(payload[start..end])
  {
    var q := start;
    while q + 3 <= end
      invariant start <= q <= end
      invariant FirstHostBytes(payload[start..end]) == FirstHostBytes(payload[q..end])
      decreases end - q
    {
      SubSlice(payload, q, end, 1, 1);
      Vector16At(payload, q + 1, end);
      var nameType := payload[q];
      var nameLen := Be16(payload[q + 1], payload[q + 2]);
      var nameEnd := q + 3 + nameLen;
      if nameEnd > end {
        return None;
      }
      if nameType == 0 {
        return Some(payload[q + 3..nameEnd]);
      }
      q := nameEnd;
    }
    host := None;
  }

  /** Where the data of the first server_name extension lies, from cursor `p` on. */
  function ServerNameFrom(bs: seq<Octet>, p: nat, end: nat): Option<(nat, nat)>
    requires p <= end <= |bs|
    decreases end - p
  {
    if p + 4 > end then None
    else
      var next := p + 4 + Be16(bs[p + 2], bs[p + 3]);
      if next > end then None
      else if Be16(bs[p], bs[p + 1]) == 0 then Some((p + 4, next))
      else ServerNameFrom(bs, next, end)
  }

  lemma {:induction false} ServerNameFromCursor(bs: seq<Octet>, p: nat, end: nat)
    requires p <= end <= |bs|
    ensures var region := ServerNameFrom(bs, p, end);
            && (region.Some? ==> region.value.0 <= region.value.1 <= end)
            && FirstServerNameData(bs[p..end])
               == if region.None? then None else Some(bs[region.value.0..region.value.1])
    decreases end - p
  {
    if p + 4 <= end {
      SubSlice(bs, p, end, 2, 2);
      Vector16At(bs, p + 2, end);
      var next := p + 4 + Be16(bs[p + 2], bs[p + 3]);
      if next <= end {
        ServerNameFromCursor(bs, next, end);
      }
    }
  }

  /** Scans the extensions between `start` and `end` for the first server_name one. */
  method ScanExtensions(payload: seq<Octet>, start: nat, end: nat) returns (region: Option<(nat, nat)>)
    requires start <= end <= |payload|
    ensures region == ServerNameFrom(payload, start, end)
  {
    var p := start;
    while p + 4 <= end
      invariant start <= p <= end
      invariant ServerNameFrom(payload, start, end) == ServerNameFrom(payload, p, end)
      decreases end - p
    {
      var extType := Be16(payload[p], payload[p + 1]);
      var extLen := Be16(payload[p + 2], payload[p + 3]);
      p := p + 4;
      var dataEnd := p + extLen;
      if dataEnd > end {
        return None;
      }
      if extType == 0 {
        return Some((p, dataEnd));
      }
      p := dataEnd;
    }
    return None;
  }

  /** Reads the name list of a server_name extension lying between `start` and `end`. */
  method ScanServerName(payload: seq<Octet>, start: nat, end: nat) returns (host: Option<seq<Octet>>)
    requires start <= end <= |payload|
    ensures host == HostBytes(payload[start..end])
  {
    if start + 2 > end {
      return None;
    }
    Vector16At(payload, start, end);
    var listLen := Be16(payload[start], payload[start + 1]);
    var listEnd := start + 2 + listLen;
    if listEnd > end {
      return None;
    }
    host := ScanNames(payload, start + 2, listEnd);
  }

  /** Steps over a vector with a one-byte length.  At the end of the handshake the code reads one byte more,
      if the payload has it; the length found there never fits. */
  method SkipVector8(payload: seq<Octet>, p: nat, end: nat) returns (next: Option<nat>)
    requires p <= end <= |payload|
    ensures var v := Vector8(payload[p..end]);
            if v.None? then next == None
            else next.Some? && p <= next.value <= end && v.value.1 == payload[next.value..end]
  {
    if p >= |payload| {
      return None;
    }
    if p < end {
      Vector8At(payload, p, end);
    }
    var n: nat := payload[p];
    return if p + 1 + n > end then None else Some(p + 1 + n);
  }

  /** Steps over a vector with a two-byte length. */
  method SkipVector16(payload: seq<Octet>, p: nat, end: nat) returns (next: Option<nat>)
    requires p <= end <= |payload|
    ensures var v := Vector16(payload[p..end]);
            if v.None? then next == None
            else next.Some? && p + 2 <= next.value <= end
                 && v.value.0 == payload[p + 2..next.value] && v.value.1 == payload[next.value..end]
  {
    if p + 2 > end {
      return None;
    }
    Vector16At(payload, p, end);
    var n := Be16(payload[p], payload[p + 1]);
    return if p + 2 + n > end then None else Some(p + 2 + n);
  }

  /** Walks the fixed part of a ClientHello body lying between `start` and `hsEnd`. */
  method SkipFixedPart(payload: seq<Octet>, start: nat, hsEnd: nat) returns (p: Option<nat>)
    requires start <= hsEnd <= |payload|
    ensures var rest := AfterFixedPart(payload[start..hsEnd]);
            if rest.None? then p == None else p.Some? && p.value <= hsEnd && rest.value == payload[p.value..hsEnd]
  {
    if start + 34 > hsEnd {
      return None;
    }
    SubSlice(payload, start, hsEnd, 34, 34);
    p := SkipVector8(payload, start + 34, hsEnd);
    if p.Some? {
      p := SkipVector16(payload, p.value, hsEnd);
    }
    if p.Some? {
      p := SkipVector8(payload, p.value, hsEnd);
    }
  }

  /** Finds the extension block of a ClientHello body lying between `start` and `hsEnd`. */
  method FindExtensions(payload: seq<Octet>, start: nat, hsEnd: nat) returns (found: bool, from: nat, to: nat)
    requires start <= hsEnd <= |payload|
    ensures found ==> from <= to <= |payload|
    ensures Extensions(payload[start..hsEnd]) == if found then Some(payload[from..to]) else None
  {
    var p := SkipFixedPart(payload, start, hsEnd);
    if p.None? {
      return false, 0, 0;
    }
    var end := SkipVector16(payload, p.value, hsEnd);
    if end.None? {
      return false, 0, 0;
    }
    return true, p.value + 2, end.value;
  }

  /** Checks the record and handshake headers, and finds the ClientHello body. */
  method FindHello(payload: seq<Octet>) returns (found: bool, from: nat, to: nat)
    ensures found ==> from <= to <= |payload|
    ensures HelloBody(payload) == if found then Some(payload[from..to]) else None
  {
    found, from, to := false, 0, 0;
    if |payload| < 5 || payload[0] != 22 {
      return;
    }
    Vector16At(payload, 3, |payload|);
    assert payload[3..] == payload[3..|payload|];
    var recordLen := Be16(payload[3], payload[4]);
    var recordEnd := 5 + recordLen;
    if recordEnd > |payload| {
      return;
    }
    if |payload| <= 5 || payload[5] != 1 || |payload| < 9 {
      return;
    }
    var hsLen := Be24(payload[6], payload[7], payload[8]);
    var hsStart := 9;
    var hsEnd := hsStart + hsLen;
    if hsEnd > recordEnd {
      return;
    }
    SubSlice(payload, 5, recordEnd, 4, 4 + hsLen);
    return true, hsStart, hsEnd;
  }

  /** For every byte string the parser terminates, stays inside it, and returns what the bytes mean. */
  method TlsClientHelloSni(payload: seq<Octet>) returns (sni: Option<seq<Scalar>>)
    ensures sni == ClientHelloSni(payload)
  {
    var found, from, to := FindHello(payload);
    if !found {
      return None;
    }
    found, from, to := FindExtensions(payload, from, to);
    if !found {
      return None;
    }
    ServerNameFromCursor(payload, from, to);
    var region := ScanExtensions(payload, from, to);
    if region.None? {
      return None;
    }
    var host := ScanServerName(payload, region.value.0, region.value.1);
    return if host.None? then None else NormalizeName(host.value);
  }

  // ---- serializing a ClientHello ----

  datatype ServerName = ServerName(nameType: Octet, name: seq<Octet>)

  datatype Extension =
    | ServerNames(names: seq<ServerName>)
    | Other(extType: nat, data: seq<Octet>)

  datatype ClientHello = ClientHello(
    version: seq<Octet>, random: seq<Octet>, session: seq<Octet>, suites: seq<Octet>,
    compression: seq<Octet>, extensions: seq<Extension>)

  function U16(n: nat): seq<Octet>
    requires n < 0x1_0000
  {
    [n / 256, n % 256]
  }

  function U24(n: nat): seq<Octet>
    requires n < 0x100_0000
  {
    [n / 256 / 256, n / 256 % 256, n % 256]
  }

  /** A vector with its one-byte length. */
  function Put8(bs: seq<Octet>): seq<Octet>
    requires |bs| < 256
  {
    [|bs|] + bs
  }

  /** A vector with its two-byte length. */
  function Put16(bs: seq<Octet>): seq<Octet>
    requires |bs| < 0x1_0000
  {
    U16(|bs|) + bs
  }

  predicate NamesFit(names: seq<ServerName>) {
    (forall n | n in names :: |n.name| < 0x1_0000) && NamesLength(names) + 2 < 0x1_0000
  }

  function NamesLength(names: seq<ServerName>): nat {
    if names == [] then 0 else 3 + |names[0].name| + NamesLength(names[1..])
  }

  function PutNames(names: seq<ServerName>): (bs: seq<Octet>)
    requires forall n | n in names :: |n.name| < 0x1_0000
    ensures |bs| == NamesLength(names)
  {
    if names == [] then [] else [names[0].nameType] + Put16(names[0].name) + PutNames(names[1..])
  }

  function ExtensionLength(e: Extension): nat {
    4 + if e.ServerNames? then 2 + NamesLength(e.names) else |e.data|
  }

  predicate ExtensionFits(e: Extension) {
    match e
    case ServerNames(names) => NamesFit(names)
    case Other(extType, data) => 0 < extType < 0x1_0000 && |data| < 0x1_0000
  }

  function PutExtension(e: Extension): (bs: seq<Octet>)
    requires ExtensionFits(e)
    ensures |bs| == ExtensionLength(e)
  {
    match e
    case ServerNames(names) => U16(0) + Put16(Put16(PutNames(names)))
    case Other(extType, data) => U16(extType) + Put16(data)
  }

  function ExtensionsLength(es: seq<Extension>): nat {
    if es == [] then 0 else ExtensionLength(es[0]) + ExtensionsLength(es[1..])
  }

  function PutExtensions(es: seq<Extension>): (bs: seq<Octet>)
    requires forall e | e in es :: ExtensionFits(e)
    ensures |bs| == ExtensionsLength(es)
  {
    if es == [] then [] else PutExtension(es[0]) + PutExtensions(es[1..])
  }

  function BodyLength(h: ClientHello): nat {
    34 + 1 + |h.session| + 2 + |h.suites| + 1 + |h.compression| + 2 + ExtensionsLength(h.extensions)
  }

  /** The hello fits its length fields and a single record. */
  predicate Fits(h: ClientHello) {
    && |h.version| == 2 && |h.random| == 32
    && |h.session| < 256 && |h.suites| < 0x1_0000 && |h.compression| < 256
    && (forall e | e in h.extensions :: ExtensionFits(e))
    && ExtensionsLength(h.extensions) < 0x1_0000
    && 4 + BodyLength(h) < 0x1_0000
  }

  function PutBody(h: ClientHello): (bs: seq<Octet>)
    requires Fits(h)
    ensures |bs| == BodyLength(h)
  {
    h.version + h.random
    + (Put8(h.session) + (Put16(h.suites) + (Put8(h.compression) + Put16(PutExtensions(h.extensions)))))
  }

  function PutHandshake(h: ClientHello): (bs: seq<Octet>)
    requires Fits(h)
    ensures |bs| == 4 + BodyLength(h)
  {
    [1] + U24(BodyLength(h)) + PutBody(h)
  }

  function Serialize(h: ClientHello, recordVersion: seq<Octet>): seq<Octet>
    requires Fits(h) && |recordVersion| == 2
  {
    [22] + recordVersion + Put16(PutHandshake(h))
  }

  // ---- what the hello itself says ----

  function FirstServerNames(es: seq<Extension>): Option<seq<ServerName>> {
    if es == [] then None
    else if es[0].ServerNames? then Some(es[0].names)
    else FirstServerNames(es[1..])
  }

  function FirstHostName(names: seq<ServerName>): Option<seq<Octet>> {
    if names == [] then None
    else if names[0].nameType == 0 then Some(names[0].name)
    else FirstHostName(names[1..])
  }

  /** The normalized first host_name of the first server_name extension. */
  function AnnouncedName(h: ClientHello): Option<seq<Scalar>> {
    var names := FirstServerNames(h.extensions);
    if names.None? then None
    else
      var host := FirstHostName(names.value);
      if host.None? then None else NormalizeName(host.value)
  }

  // ---- parsing undoes serializing ----

  lemma Vector8Put(bs: seq<Octet>, rest: seq<Octet>)
    requires |bs| < 256
    ensures Vector8(Put8(bs) + rest) == Some((bs, rest))
  {
  }

  lemma Vector16Put(bs: seq<Octet>, rest: seq<Octet>)
    requires |bs| < 0x1_0000
    ensures Vector16(Put16(bs) + rest) == Some((bs, rest))
  {
    var all := Put16(bs) + rest;
    assert Be16(all[0], all[1]) == |bs|;
    assert all[2..2 + |bs|] == bs && all[2 + |bs|..] == rest;
  }

  lemma {:induction false} HostOfSerializedNames(names: seq<ServerName>)
    requires forall n | n in names :: |n.name| < 0x1_0000
    ensures FirstHostBytes(PutNames(names)) == FirstHostName(names)
    decreases |names|
  {
    if names != [] {
      var bs := PutNames(names);
      assert bs[1..] == Put16(names[0].name) + PutNames(names[1..]);
      Vector16Put(names[0].name, PutNames(names[1..]));
      HostOfSerializedNames(names[1..]);
    }
  }

  function ExtensionType(e: Extension): nat {
    if e.ServerNames? then 0 else e.extType
  }

  function ExtensionData(e: Extension): (bs: seq<Octet>)
    requires ExtensionFits(e)
    ensures |bs| < 0x1_0000
  {
    if e.ServerNames? then Put16(PutNames(e.names)) else e.data
  }

  lemma SkipSerializedExtension(e: Extension, rest: seq<Octet>)
    requires ExtensionFits(e)
    ensures FirstServerNameData(PutExtension(e) + rest)
         == if e.ServerNames? then Some(Put16(PutNames(e.names))) else FirstServerNameData(rest)
  {
    var bs := PutExtension(e) + rest;
    var ty := U16(ExtensionType(e));
    assert bs == ty + (Put16(ExtensionData(e)) + rest);
    assert bs[2..] == Put16(ExtensionData(e)) + rest;
    assert bs[0] == ty[0] && bs[1] == ty[1];
    Vector16Put(ExtensionData(e), rest);
  }

  lemma {:induction false} ServerNamesOfSerializedExtensions(es: seq<Extension>)
    requires forall e | e in es :: ExtensionFits(e)
    ensures FirstServerNames(es).Some? ==> NamesFit(FirstServerNames(es).value)
    ensures FirstServerNameData(PutExtensions(es)) ==
            if FirstServerNames(es).None? then None
            else Some(Put16(PutNames(FirstServerNames(es).value)))
    decreases |es|
  {
    if es != [] {
      assert ExtensionFits(es[0]);
      SkipSerializedExtension(es[0], PutExtensions(es[1..]));
      ServerNamesOfSerializedExtensions(es[1..]);
    }
  }

  lemma FixedPartOfSerialized(
      fixed: seq<Octet>, session: seq<Octet>, suites: seq<Octet>, compression: seq<Octet>, rest: seq<Octet>)
    requires |fixed| == 34 && |session| < 256 && |suites| < 0x1_0000 && |compression| < 256
    ensures AfterFixedPart(fixed + (Put8(session) + (Put16(suites) + (Put8(compression) + rest)))) == Some(rest)
  {
    var r2 := Put8(compression) + rest;
    var r1 := Put16(suites) + r2;
    var r0 := Put8(session) + r1;
    assert (fixed + r0)[34..] == r0;
    Vector8Put(session, r1);
    Vector16Put(suites, r2);
    Vector8Put(compression, rest);
  }

  lemma ExtensionsOfSerializedBody(h: ClientHello)
    requires Fits(h)
    ensures Extensions(PutBody(h)) == Some(PutExtensions(h.extensions))
  {
    var exts := PutExtensions(h.extensions);
    var rest := Put16(exts);
    FixedPartOfSerialized(h.version + h.random, h.session, h.suites, h.compression, rest);
    Vector16Put(exts, []);
    assert rest + [] == rest;
  }

  lemma Be24OfU24(n: nat)
    requires n < 0x100_0000
    ensures var bs := U24(n); Be24(bs[0], bs[1], bs[2]) == n
  {
  }

  lemma BodyOfHandshake(body: seq<Octet>)
    requires |body| < 0x100_0000
    ensures HandshakeBody([1] + U24(|body|) + body) == Some(body)
  {
    var length := U24(|body|);
    var handshake := [1] + length + body;
    Be24OfU24(|body|);
    assert handshake[1] == length[0] && handshake[2] == length[1] && handshake[3] == length[2];
    assert handshake[4..4 + |body|] == body;
  }

  /** Handshake bytes inside a record. */
  lemma BodyOfRecord(handshake: seq<Octet>, recordVersion: seq<Octet>, rest: seq<Octet>)
    requires |handshake| < 0x1_0000 && |recordVersion| == 2
    ensures HelloBody([22] + recordVersion + Put16(handshake) + rest) == HandshakeBody(handshake)
  {
    var payload := [22] + recordVersion + Put16(handshake) + rest;
    assert payload[3..] == Put16(handshake) + rest;
    Vector16Put(handshake, rest);
  }

  /** A serialized ClientHello, whatever follows its record, announces exactly the name it carries. */
  lemma SerializedHelloIsRead(h: ClientHello, recordVersion: seq<Octet>, rest: seq<Octet>)
    requires Fits(h) && |recordVersion| == 2
    ensures ClientHelloSni(Serialize(h, recordVersion) + rest) == AnnouncedName(h)
  {
    BodyOfHandshake(PutBody(h));
    BodyOfRecord(PutHandshake(h), recordVersion, rest);
    ExtensionsOfSerializedBody(h);
    ServerNamesOfSerializedExtensions(h.extensions);
    var names := FirstServerNames(h.extensions);
    if names.Some? {
      var list := PutNames(names.value);
      Vector16Put(list, []);
      assert Put16(list) + [] == Put16(list);
      HostOfSerializedNames(names.value);
    }
  }

  /** The minimal hello the repository's own tests build around one host name. */
  function BuildClientHelloRecord(host: seq<Octet>): seq<Octet>
    requires |host| < 0xFF00
  {
    var nameListLen := 1 + 2 + |host|;
    var sniDataLen := 2 + nameListLen;
    var extensionsLen := 4 + sniDataLen;
    var handshakeLen := 2 + 32 + 1 + 2 + 2 + 1 + 1 + 2 + extensionsLen;
    var sni := U16(0) + U16(sniDataLen) + U16(nameListLen) + [0] + U16(|host|) + host;
    var hello := [3, 3] + seq(32, _ => 0) + [0] + U16(2) + [0x00, 0x2F] + [1] + [0] + U16(extensionsLen) + sni;
    [22] + [3, 3] + U16(4 + handshakeLen) + ([1] + U24(handshakeLen) + hello)
  }

  function TestHello(host: seq<Octet>): ClientHello {
    ClientHello([3, 3], seq(32, _ => 0), [], [0x00, 0x2F], [0], [ServerNames([ServerName(0, host)])])
  }

  lemma TestExtensions(host: seq<Octet>)
    requires |host| < 0xFF00
    ensures NamesFit([ServerName(0, host)])
    ensures PutExtensions([ServerNames([ServerName(0, host)])])
         == U16(0) + U16(5 + |host|) + U16(3 + |host|) + [0] + U16(|host|) + host
  {
    var names := [ServerName(0, host)];
    assert names[1..] == [];
    assert PutNames(names) == [0] + Put16(host) + [];
    var es := [ServerNames(names)];
    assert es[1..] == [];
    assert PutExtensions(es) == PutExtension(es[0]) + [];
  }

  lemma TestLengths(host: seq<Octet>)
    requires |host| < 0xFF00
    ensures Fits(TestHello(host)) && BodyLength(TestHello(host)) == 52 + |host|
    ensures |PutExtensions(TestHello(host).extensions)| == 9 + |host|
  {
    TestExtensions(host);
    var h := TestHello(host);
    assert ExtensionsLength(h.extensions) == |PutExtensions(h.extensions)|;
  }

  lemma TestVectors(exts: seq<Octet>)
    requires |exts| < 0x1_0000
    ensures Put8([]) == [0] && Put16([0x00, 0x2F]) == U16(2) + [0x00, 0x2F] && Put8([0]) == [1] + [0]
    ensures Put16(exts) == U16(|exts|) + exts
  {
    assert [0] + [] == [0];
  }

  lemma Flatten(a: seq<Octet>, b: seq<Octet>, c: seq<Octet>, d: seq<Octet>, e: seq<Octet>, f: seq<Octet>)
    ensures a + (b + (c + (d + (e + f)))) == a + b + c + d + e + f
  {
  }

  lemma Regroup(a: seq<Octet>, b: seq<Octet>, c: seq<Octet>, d: seq<Octet>, e: seq<Octet>)
    ensures a + (b + c) + (d + e) == a + b + c + d + e
  {
  }

  lemma TestBody(host: seq<Octet>)
    requires |host| < 0xFF00
    ensures Fits(TestHello(host)) && BodyLength(TestHello(host)) == 52 + |host|
    ensures PutBody(TestHello(host))
         == [3, 3] + seq(32, _ => 0) + [0] + U16(2) + [0x00, 0x2F] + [1] + [0] + U16(9 + |host|)
            + PutExtensions(TestHello(host).extensions)
  {
    TestLengths(host);
    var h := TestHello(host);
    var exts := PutExtensions(h.extensions);
    TestVectors(exts);
    Flatten(h.version + h.random, [0], U16(2) + [0x00, 0x2F], [1] + [0], U16(9 + |host|), exts);
    Regroup([3, 3] + seq(32, _ => 0) + [0], U16(2), [0x00, 0x2F], [1], [0]);
  }

  /** The test record is one such serialization, so its host name is read back for every host. */
  lemma TestRecordIsRead(host: seq<Octet>)
    requires |host| < 0xFF00
    ensures ClientHelloSni(BuildClientHelloRecord(host)) == NormalizeName(host)
  {
    var h := TestHello(host);
    TestExtensions(host);
    TestBody(host);
    assert Serialize(h, [3, 3]) + [] == BuildClientHelloRecord(host);
    SerializedHelloIsRead(h, [3, 3], []);
    assert FirstHostName([ServerName(0, host)]) == Some(host);
  }

  /** The name of a clean host, in any text and any case, is read back in lower case. */
  lemma CleanHostIsReadBack(host: seq<Scalar>, name: seq<Scalar>)
    requires host != [] && !IsWhitespace(host[0]) && |EncodeAll(host)| < 0xFF00
    requires !IsWhitespace(host[|host| - 1]) && host[|host| - 1] != '.' as int
    requires Lowered(host, name)
    ensures ClientHelloSni(BuildClientHelloRecord(EncodeAll(host))) == Some(name)
  {
    TestRecordIsRead(EncodeAll(host));
    DecodeEncoded(host);
    assert host == [] + (host + [] + []);
    assert Splits(host, [], host, [], []);
    NormalizedName(EncodeAll(host), name);
  }
}
