/** The TLS record layer under a ClientHello (section 5.1 of RFC 8446), and its fragmentation. */
module Records {
  import opened Bytes
  import opened Collections
  import opened Cursors
  import opened ClientHellos
  import opened HelloBuild

  const RECORD_HANDSHAKE: Byte := 0x16
  const RECORD_HEADER := 5
  const MAX_CLIENT_HELLO := 16384

  /** Whether a whole handshake message is there; an absurd length is malformed. */
  function Complete(out: Octets): Result<bool, HelloError> {
    if |out| < 4 then Success(false)
    else
      var n := Be24(out[1], out[2], out[3]);
      if n > MAX_CLIENT_HELLO then Failure(Malformed) else Success(|out| >= 4 + n)
  }

  function Finish(out: Octets): Result<Octets, HelloError> {
    if out == [] then Failure(Incomplete)
    else
      match Complete(out)
      case Failure(e) => Failure(e)
      case Success(complete) => if complete then Success(out) else Failure(Incomplete)
  }

  /** Handshake records from here on, their contents appended to `out` until it holds a whole message. */
  function CollectFrom(rest: Octets, out: Octets): Result<Octets, HelloError>
    decreases |rest|
  {
    if |rest| < RECORD_HEADER || rest[0] != RECORD_HANDSHAKE then Finish(out)
    else
      var n := Be16(rest[3], rest[4]);
      if n == 0 || n > MAX_CLIENT_HELLO then Failure(Malformed)
      else if RECORD_HEADER + n > |rest| then Failure(Incomplete)
      else
        var more := out + rest[RECORD_HEADER..RECORD_HEADER + n];
        match Complete(more)
        case Failure(e) => Failure(e)
        case Success(complete) => if complete then Success(more) else CollectFrom(rest[RECORD_HEADER + n..], more)
  }

  function Collect(buf: Octets): Result<Octets, HelloError> {
    if |buf| < RECORD_HEADER then Failure(Incomplete)
    else if buf[0] != RECORD_HANDSHAKE || buf[1] != 0x03 then Failure(NotClientHello)
    else CollectFrom(buf, [])
  }

  /** A ClientHello at the start of a TCP stream. */
  function ParseClientHello(buf: Octets): Result<ClientHello, HelloError> {
    match Collect(buf)
    case Failure(e) => Failure(e)
    case Success(body) => ParseHandshake(body)
  }

  method CollectHandshake(buf: Octets) returns (r: Result<Octets, HelloError>)
    ensures r == Collect(buf)
  {
    hide Complete;
    if |buf| < RECORD_HEADER {
      return Failure(Incomplete);
    }
    if buf[0] != RECORD_HANDSHAKE || buf[1] != 0x03 {
      return Failure(NotClientHello);
    }
    var out: Octets := [];
    var off := 0;
    assert buf[0..] == buf;
    while off + RECORD_HEADER <= |buf|
      invariant 0 <= off <= |buf| && CollectFrom(buf[off..], out) == CollectFrom(buf, [])
      decreases |buf| - off
    {
      if buf[off] != RECORD_HANDSHAKE {
        break; // not a handshake record
      }
      var n := Be16(buf[off + 3], buf[off + 4]);
      if n == 0 || n > MAX_CLIENT_HELLO {
        return Failure(Malformed);
      }
      var end := off + RECORD_HEADER + n;
      if end > |buf| {
        return Failure(Incomplete);
      }
      assert buf[off..][RECORD_HEADER..RECORD_HEADER + n] == buf[off + RECORD_HEADER..end];
      assert buf[off..][RECORD_HEADER + n..] == buf[end..];
      out := out + buf[off + RECORD_HEADER..end];
      off := end;
      var complete := Complete(out);
      if complete.Failure? {
        return Failure(complete.error);
      } else if complete.value {
        return Success(out);
      }
    }
    r := Finish(out);
  }

  method DecodeClientHello(buf: Octets) returns (r: Result<ClientHello, HelloError>)
    ensures r == ParseClientHello(buf)
  {
    var body := CollectHandshake(buf);
    if body.Failure? {
      return Failure(body.error);
    }
    r := DecodeHandshake(body.value);
  }

  // --- a message cut into records ---

  datatype Record = Record(major: Byte, minor: Byte, payload: Octets)

  function RecordBytes(r: Record): Octets {
    [RECORD_HANDSHAKE, r.major, r.minor] + (U16Bytes(|r.payload| % 0x1_0000) + r.payload)
  }

  function RecordsBytes(rs: seq<Record>): Octets {
    if rs == [] then [] else RecordBytes(rs[0]) + RecordsBytes(rs[1..])
  }

  function Payloads(rs: seq<Record>): Octets {
    if rs == [] then [] else rs[0].payload + Payloads(rs[1..])
  }

  /** Exactly one handshake message of a size the sensor accepts. */
  predicate IsMessage(m: Octets) {
    |m| >= 4 && Be24(m[1], m[2], m[3]) <= MAX_CLIENT_HELLO && |m| == 4 + Be24(m[1], m[2], m[3])
  }

  /** Records cut a message when each carries something and together they carry it. */
  ghost predicate Cuts(rs: seq<Record>, out: Octets, m: Octets) {
    && rs != [] && (forall r | r in rs :: 0 < |r.payload| <= MAX_CLIENT_HELLO)
    && out + Payloads(rs) == m
  }

  lemma RecordShape(r: Record, back: Octets)
    requires 0 < |r.payload| <= MAX_CLIENT_HELLO
    ensures var s := RecordBytes(r) + back;
            && |s| >= RECORD_HEADER + |r.payload| && s[0] == RECORD_HANDSHAKE && s[1] == r.major
            && Be16(s[3], s[4]) == |r.payload|
            && s[RECORD_HEADER..RECORD_HEADER + |r.payload|] == r.payload
            && s[RECORD_HEADER + |r.payload|..] == back
            && |RecordBytes(r)| == RECORD_HEADER + |r.payload|
  {
    var n := |r.payload|;
    var head, size: Octets := [RECORD_HANDSHAKE, r.major, r.minor], U16Bytes(n);
    assert RecordBytes(r) == head + (size + r.payload);
    U16Value(n);
    hide RecordBytes, U16Bytes, Be16;
    Assoc(head, size, r.payload);
    Assoc(head + size, r.payload, back);
    CutAfter(head + size, r.payload + back, n);
    assert (r.payload + back)[..n] == r.payload && (r.payload + back)[n..] == back;
  }

  /** Nothing shorter than the message looks complete. */
  lemma PartIncomplete(part: Octets, m: Octets)
    requires IsMessage(m) && part <= m && |part| < |m|
    ensures Complete(part) == Success(false) && Finish(part) == Failure(Incomplete)
  {
  }

  lemma CutsTail(rs: seq<Record>, out: Octets, m: Octets)
    requires Cuts(rs, out, m)
    ensures out + rs[0].payload <= m
    ensures |rs| == 1 ==> out + rs[0].payload == m
    ensures |rs| > 1 ==> Cuts(rs[1..], out + rs[0].payload, m) && |out + rs[0].payload| < |m|
  {
    assert m == (out + rs[0].payload) + Payloads(rs[1..]);
    if |rs| > 1 {
      assert rs[1] in rs;
      assert |Payloads(rs[1..])| > 0;
    } else {
      assert Payloads(rs[1..]) == [];
    }
  }

  /** The whole of the records yields the message, whatever follows them. */
  lemma {:induction false} CutCollects(rs: seq<Record>, out: Octets, m: Octets, back: Octets)
    requires IsMessage(m) && Cuts(rs, out, m)
    ensures CollectFrom(RecordsBytes(rs) + back, out) == Success(m)
    decreases |rs|
  {
    var tail := RecordsBytes(rs[1..]) + back;
    var more := out + rs[0].payload;
    assert rs[0] in rs;
    CutsTail(rs, out, m);
    hide CollectFrom, RecordBytes, Payloads, Complete;
    Assoc(RecordBytes(rs[0]), RecordsBytes(rs[1..]), back);
    CollectStep(rs[0], tail, out);
    if |rs| > 1 {
      PartIncomplete(more, m);
      CutCollects(rs[1..], more, m, back);
    } else {
      WholeComplete(m);
    }
  }

  lemma WholeComplete(m: Octets)
    requires IsMessage(m)
    ensures Complete(m) == Success(true)
  {
    hide Be24;
  }

  /** One record in front: its payload joins what was collected. */
  lemma CollectStep(r: Record, tail: Octets, out: Octets)
    requires 0 < |r.payload| <= MAX_CLIENT_HELLO
    ensures
      var more := out + r.payload;
      CollectFrom(RecordBytes(r) + tail, out) ==
      match Complete(more)
      case Failure(e) => Failure(e)
      case Success(complete) => if complete then Success(more) else CollectFrom(tail, more)
  {
    RecordShape(r, tail);
    hide RecordBytes, Complete, Be16;
  }

  /** Every proper prefix of the records is incomplete: no cut of the bytes misleads the parser. */
  lemma {:induction false} PrefixIncomplete(rs: seq<Record>, out: Octets, m: Octets, part: Octets)
    requires IsMessage(m) && Cuts(rs, out, m)
    requires part <= RecordsBytes(rs) && |part| < |RecordsBytes(rs)|
    ensures CollectFrom(part, out) == Failure(Incomplete)
    decreases |rs|
  {
    var r, tail := rs[0], RecordsBytes(rs[1..]);
    assert r in rs;
    var whole := RecordBytes(r) + tail;
    assert RecordsBytes(rs) == whole;
    RecordShape(r, tail);
    CutsTail(rs, out, m);
    var n := RECORD_HEADER + |r.payload|;
    assert out <= m && |out| < |m|;
    PartIncomplete(out, m);
    hide RecordBytes, Cuts, Payloads, IsMessage, Complete, Finish;
    if |part| >= RECORD_HEADER {
      assert part[0] == whole[0] && part[3] == whole[3] && part[4] == whole[4];
      if |part| >= n {
        var more := out + r.payload;
        assert part[RECORD_HEADER..n] == whole[RECORD_HEADER..n];
        assert part[n..] <= tail && |part[n..]| < |tail|;
        assert |rs| > 1;
        PartIncomplete(more, m);
        PrefixIncomplete(rs[1..], more, m, part[n..]);
      }
    }
  }

  /** The first record announces TLS. */
  ghost predicate Announces(rs: seq<Record>) { rs != [] && rs[0].major == 0x03 }

  lemma FirstBytes(rs: seq<Record>, m: Octets, back: Octets)
    requires Cuts(rs, [], m) && Announces(rs)
    ensures var s := RecordsBytes(rs) + back;
            |RecordsBytes(rs)| > RECORD_HEADER && s[0] == RECORD_HANDSHAKE && s[1] == 0x03
  {
    assert rs[0] in rs;
    RecordsStep(rs);
    hide RecordBytes, RecordsBytes, Be16, Cuts;
    var tail := RecordsBytes(rs[1..]);
    RecordShape(rs[0], tail + back);
    Assoc(RecordBytes(rs[0]), tail, back);
  }

  lemma RecordsStep(rs: seq<Record>)
    requires rs != []
    ensures RecordsBytes(rs) == RecordBytes(rs[0]) + RecordsBytes(rs[1..])
  {
    hide RecordBytes;
  }

  /** However a message is cut into records, the bytes yield the parse of the message, unchanged by whatever follows. */
  lemma CutParses(rs: seq<Record>, m: Octets, back: Octets)
    requires IsMessage(m) && Cuts(rs, [], m) && Announces(rs)
    ensures ParseClientHello(RecordsBytes(rs) + back) == ParseHandshake(m)
  {
    FirstBytes(rs, m, back);
    CutCollects(rs, [], m, back);
    hide ParseHandshake, CollectFrom, RecordsBytes, Cuts, IsMessage;
  }

  /** And every proper prefix of them asks for more. */
  lemma PrefixAsksForMore(rs: seq<Record>, m: Octets, part: Octets)
    requires IsMessage(m) && Cuts(rs, [], m) && Announces(rs)
    requires part <= RecordsBytes(rs) && |part| < |RecordsBytes(rs)|
    ensures ParseClientHello(part) == Failure(Incomplete)
  {
    FirstBytes(rs, m, []);
    PrefixIncomplete(rs, [], m, part);
    hide CollectFrom, RecordsBytes, Cuts, IsMessage;
    assert RecordsBytes(rs) + [] == RecordsBytes(rs);
    if |part| >= RECORD_HEADER {
      assert part[0] == RecordsBytes(rs)[0] && part[1] == RecordsBytes(rs)[1];
    }
  }

  // --- the hellos of the synthetic capture ---

  /** One record around a message, its length field keeping only the low 16 bits. */
  function InRecord(m: Octets): Octets { [RECORD_HANDSHAKE] + (U16Bytes(0x0301) + Vector(2, m)) }

  /** A built handshake message in its record. */
  function BuildHello(s: HelloSpec): Octets { InRecord(BuildHandshake(s)) }

  lemma PrefixedIsMessage(t: Byte, body: Octets)
    requires |body| <= MAX_CLIENT_HELLO
    ensures IsMessage([t] + (U24Bytes(|body|) + body))
  {
    hide U24Bytes, Be24;
    PrefixedStates(t, body);
  }

  lemma BuiltIsMessage(s: HelloSpec)
    requires |BuildHandshake(s)| <= MAX_CLIENT_HELLO
    ensures IsMessage(BuildHandshake(s)) && BuildHandshake(s) != []
  {
    var body := BodyBytes(ToWire(s));
    hide BodyBytes, ToWire, IsMessage, U24Bytes;
    assert |body| + 4 == |BuildHandshake(s)|;
    PrefixedIsMessage(HANDSHAKE_CLIENT_HELLO, body);
  }

  /** A message within the bound is cut by a single record. */
  lemma OneRecord(m: Octets)
    requires 0 < |m| <= MAX_CLIENT_HELLO
    ensures var rs := [Record(3, 1, m)]; Cuts(rs, [], m) && Announces(rs) && RecordsBytes(rs) == InRecord(m)
  {
    var r := Record(3, 1, m);
    assert [r][1..] == [];
    assert Payloads([r]) == m + [] == m && [] + m == m;
    assert RecordsBytes([r]) == RecordBytes(r) + [] == RecordBytes(r);
    OneRecordBytes(r);
    hide Vector, U16Bytes, InRecord, RecordBytes;
  }

  lemma OneRecordBytes(r: Record)
    requires r.major == 3 && r.minor == 1 && |r.payload| <= MAX_CLIENT_HELLO
    ensures RecordBytes(r) == InRecord(r.payload)
  {
    assert U16Bytes(0x0301) == [3, 1];
  }

  lemma RecordStarts(m: Octets, back: Octets)
    ensures
      var buf, n := InRecord(m) + back, |m| % 0x1_0000;
      && |buf| == RECORD_HEADER + |m| + |back| && buf[0] == RECORD_HANDSHAKE && buf[1] == 3
      && Be16(buf[3], buf[4]) == n && buf[RECORD_HEADER..] == m + back
      && buf[RECORD_HEADER..RECORD_HEADER + n] == m[..n] && buf[RECORD_HEADER + n..] == m[n..] + back
  {
    hide U16Bytes, InRecord, Be16;
    var n := |m| % 0x1_0000;
    var head, size: Octets := [RECORD_HANDSHAKE, 3, 1], U16Bytes(n);
    RecordLaidOut(m);
    U16Value(n);
    Assoc(head + size, m, back);
    assert InRecord(m) + back == (head + size) + (m + back);
    assert (m + back)[..n] == m[..n] && (m + back)[n..] == m[n..] + back;
    CutAfter(head + size, m + back, n);
  }

  lemma RecordLaidOut(m: Octets)
    ensures InRecord(m) == ([RECORD_HANDSHAKE, 3, 1] + U16Bytes(|m| % 0x1_0000)) + m
  {
    assert U16Bytes(0x0301) == [3, 1];
    var size := U16Bytes(|m| % 0x1_0000);
    hide U16Bytes;
    assert Vector(2, m) == size + m;
    Assoc([3, 1], size, m);
    Assoc([RECORD_HANDSHAKE], [3, 1] + size, m);
    Assoc([RECORD_HANDSHAKE], [3, 1], size);
    assert [RECORD_HANDSHAKE] + [3, 1] == [RECORD_HANDSHAKE, 3, 1];
  }

  lemma U16Value(v: Uint16)
    ensures var s := U16Bytes(v); Be16(s[0], s[1]) == v
  {
  }

  lemma CutAfter(front: Octets, back: Octets, n: nat)
    requires n <= |back|
    ensures var buf := front + back;
            && buf[|front|..] == back && buf[|front|..|front| + n] == back[..n] && buf[|front| + n..] == back[n..]
  {
  }

  /** A record longer than the sensor's bound is refused as malformed. */
  lemma TooLargeRefused(m: Octets, back: Octets)
    requires |m| % 0x1_0000 > MAX_CLIENT_HELLO || |m| % 0x1_0000 == 0
    ensures ParseClientHello(InRecord(m) + back) == Failure(Malformed)
  {
    RecordStarts(m, back);
    hide InRecord, Be16;
  }

  /** The header of a message states its length. */
  ghost predicate StatesLength(m: Octets) { |m| >= 4 && Be24(m[1], m[2], m[3]) == |m| - 4 }

  lemma PrefixNeverWhole(m: Octets, n: nat)
    requires StatesLength(m) && |m| > MAX_CLIENT_HELLO + 4 && 0 < n <= |m|
    ensures Complete(m[..n]) == if n < 4 then Success(false) else Failure(Malformed)
  {
    hide Be24;
  }

  /** After fewer than four bytes of a message whose length wrapped, no record follows. */
  lemma NoRecordFollows(m: Octets)
    requires StatesLength(m) && 0x1_0000 <= |m| < 0x16_0000 && 0 < |m| % 0x1_0000 < 4
    ensures m[|m| % 0x1_0000] != RECORD_HANDSHAKE
  {
    var q, n := |m| / 0x1_0000, |m| % 0x1_0000;
    assert Be24(m[1], m[2], m[3]) == (q - 1) * 0x1_0000 + 0xfffc + n;
    assert m[1] == q - 1 && m[2] == 0xff && m[3] == 0xfc + n;
  }

  /** A message too long for the record's length field never parses, whatever follows. */
  lemma WrappedNeverParses(m: Octets, back: Octets)
    requires StatesLength(m) && 0x1_0000 <= |m| < 0x16_0000
    ensures ParseClientHello(InRecord(m) + back).Failure?
  {
    hide InRecord, Complete, StatesLength, Collect, CollectFrom;
    var n := |m| % 0x1_0000;
    if n == 0 || n > MAX_CLIENT_HELLO {
      TooLargeRefused(m, back);
    } else {
      FirstCollected(m, back, n);
      PrefixNeverWhole(m, n);
      if n < 4 {
        NoRecordFollows(m);
        StopsShort(m[n..] + back, m[..n]);
      }
    }
  }

  /** What the first record of a message, however its length is printed, is collected to. */
  lemma FirstCollected(m: Octets, back: Octets, n: nat)
    requires n == |m| % 0x1_0000 && 0 < n <= MAX_CLIENT_HELLO
    ensures var whole := Complete(m[..n]);
            Collect(InRecord(m) + back) ==
            if whole.Failure? then Failure(whole.error)
            else if whole.value then Success(m[..n])
            else CollectFrom(m[n..] + back, m[..n])
  {
    hide InRecord, Be16, Complete;
    RecordStarts(m, back);
    assert [] + m[..n] == m[..n];
  }

  lemma StopsShort(rest: Octets, out: Octets)
    requires out != [] && Complete(out) == Success(false) && (rest == [] || rest[0] != RECORD_HANDSHAKE)
    ensures CollectFrom(rest, out) == Failure(Incomplete)
  {
    hide Complete;
  }

  lemma BuiltStatesLength(s: HelloSpec)
    requires SpecFits(s)
    ensures StatesLength(BuildHandshake(s)) && |BuildHandshake(s)| < 0x16_0000
  {
    hide StatesLength, BodyBytes, ToWire, U24Bytes;
    HelloShape(ToWire(s));
    PrefixedStates(HANDSHAKE_CLIENT_HELLO, BodyBytes(ToWire(s)));
  }

  lemma HelloShape(w: WireHello)
    requires Fits(w)
    ensures |BodyBytes(w)| < 0x15_0000 && |HelloBytes(w)| == 4 + |BodyBytes(w)|
    ensures HelloBytes(w) == [HANDSHAKE_CLIENT_HELLO] + (U24Bytes(|BodyBytes(w)|) + BodyBytes(w))
  {
    hide BodyBytes, U24Bytes, Fits, U16Bytes;
    BodyBound(w);
    assert |BodyBytes(w)| % 0x100_0000 == |BodyBytes(w)|;
  }

  lemma PrefixedStates(t: Byte, body: Octets)
    requires |body| < 0x100_0000
    ensures StatesLength([t] + (U24Bytes(|body|) + body))
  {
    hide U24Bytes, Be24;
    var m := [t] + (U24Bytes(|body|) + body);
    U24Value(|body|);
    assert m[1..4] == U24Bytes(|body|);
    assert m[1] == m[1..4][0] && m[2] == m[1..4][1] && m[3] == m[1..4][2];
  }

  lemma BodyBound(w: WireHello)
    requires Fits(w)
    ensures |BodyBytes(w)| < 0x15_0000
  {
    hide BlocksBytes, ListBytes;
  }

  /** A built hello over the bound is refused, wrapped length or not. */
  lemma OverlongRefused(s: HelloSpec, back: Octets)
    requires SpecFits(s) && |BuildHandshake(s)| > MAX_CLIENT_HELLO
    ensures ParseClientHello(BuildHello(s) + back).Failure?
  {
    hide BuildHandshake, ParseClientHello, SpecFits;
    var m := BuildHandshake(s);
    if |m| < 0x1_0000 {
      TooLargeRefused(m, back);
    } else {
      BuiltStatesLength(s);
      WrappedNeverParses(m, back);
    }
  }

  /** A built hello in its record parses back to its profile exactly when the message is within the bound on records. */
  lemma BuildHelloRoundTrip(s: HelloSpec, back: Octets)
    requires SpecFits(s)
    ensures ParseClientHello(BuildHello(s) + back) == Success(Profile(s)) <==> |BuildHandshake(s)| <= MAX_CLIENT_HELLO
  {
    hide BuildHandshake, ParseHandshake, ParseClientHello, Profile, IsMessage, SpecFits, Vector, Cuts, Announces;
    hide RecordsBytes;
    var m := BuildHandshake(s);
    if |m| <= MAX_CLIENT_HELLO {
      BuiltIsMessage(s);
      OneRecord(m);
      CutParses([Record(3, 1, m)], m, back);
      ProfileRoundTrip(s, []);
      assert m + [] == m;
    } else {
      OverlongRefused(s, back);
    }
  }

  // --- a hello the sensor cannot read ---

  function Repeated(v: Uint16, n: nat): (vs: seq<Uint16>)
    ensures |vs| == n
  {
    if n == 0 then [] else Repeated(v, n - 1) + [v]
  }

  /** A profile of nothing but `n` cipher suites. */
  function ManyCiphers(n: nat): HelloSpec { HelloSpec(0x0303, Repeated(0x1301, n), [], [], [], [], [], [], 0, false, false) }

  /** From 8170 to 32767 suites fit every length field, and the parser refuses the hello built of them. */
  lemma LongHelloRefused(n: nat, back: Octets)
    requires 8170 <= n <= 32767
    ensures SpecFits(ManyCiphers(n)) && ParseClientHello(BuildHello(ManyCiphers(n)) + back).Failure?
  {
    var s := ManyCiphers(n);
    ManyCiphersLength(n);
    hide BuildHandshake, ParseClientHello, BuildHello, ManyCiphers;
    OverlongRefused(s, back);
  }

  lemma ManyCiphersLength(n: nat)
    requires n <= 32767
    ensures SpecFits(ManyCiphers(n)) && |BuildHandshake(ManyCiphers(n))| == 45 + 2 * n
  {
    hide Repeated, ListBytes, U16Bytes;
    var s := ManyCiphers(n);
    var w := ToWire(s);
    assert w.blocks == [] && w.ciphers == s.ciphers && BlocksBytes(w.blocks) == [];
    assert |Vector(2, ListBytes(w.ciphers))| == 2 + 2 * n;
    assert |PrefixBytes(w)| == 39 + 2 * n;
  }

  // --- what is collected, and nothing else ---

  /** The start of a handshake message that is not there in full. */
  ghost predicate Begun(part: Octets) {
    |part| < 4 || (Be24(part[1], part[2], part[3]) <= 16384 && |part| < 4 + Be24(part[1], part[2], part[3]))
  }

  /** A handshake message of acceptable size, in full. */
  ghost predicate Whole(m: Octets) {
    |m| >= 4 && Be24(m[1], m[2], m[3]) <= 16384 && 4 + Be24(m[1], m[2], m[3]) <= |m|
  }

  /** `m` is what these records carry on top of `out`: whole with the last of them, and not before. */
  ghost predicate Carry(rs: seq<Record>, out: Octets, m: Octets) {
    && rs != [] && 0 < |rs[0].payload| <= 16384
    && var more := out + rs[0].payload;
       if |rs| == 1 then m == more && Whole(m) else Begun(more) && Carry(rs[1..], more, m)
  }

  lemma CompleteIs(out: Octets)
    ensures Complete(out) == Success(true) <==> Whole(out)
    ensures Complete(out) == Success(false) <==> Begun(out)
    ensures Begun(out) ==> !Finish(out).Success?
  {
  }

  /** A record's fields and what follows it, when the bytes start with a whole one. */
  lemma RecordThere(rest: Octets)
    requires |rest| >= 5 && rest[0] == 22 && 0 < Be16(rest[3], rest[4]) <= 16384 && 5 + Be16(rest[3], rest[4]) <= |rest|
    ensures var n := Be16(rest[3], rest[4]);
            rest == RecordBytes(Record(rest[1], rest[2], rest[5..5 + n])) + rest[5 + n..]
  {
    var n := Be16(rest[3], rest[4]);
    hide Be16, RecordBytes;
    RecordIs(rest);
    FourParts(rest, n);
    Regrouped(rest[..3], rest[3..5], rest[5..5 + n], rest[5 + n..]);
  }

  lemma RecordIs(rest: Octets)
    requires |rest| >= 5 && rest[0] == 22 && 5 + Be16(rest[3], rest[4]) <= |rest|
    ensures var payload := rest[5..5 + Be16(rest[3], rest[4])];
            RecordBytes(Record(rest[1], rest[2], payload)) == rest[..3] + (rest[3..5] + payload)
  {
    hide RecordBytes, U16Bytes, Be16;
    PairBytes(rest[3], rest[4]);
    RecordOf(rest[1], rest[2], rest[5..5 + Be16(rest[3], rest[4])]);
    assert [22, rest[1], rest[2]] == rest[..3] && [rest[3], rest[4]] == rest[3..5];
  }

  lemma RecordOf(major: Byte, minor: Byte, payload: Octets)
    requires |payload| < 0x1_0000
    ensures RecordBytes(Record(major, minor, payload)) == [22, major, minor] + (U16Bytes(|payload|) + payload)
  {
    hide U16Bytes;
  }

  lemma PairBytes(a: Byte, b: Byte)
    ensures U16Bytes(Be16(a, b)) == [a, b]
  {
  }

  lemma Regrouped(a: Octets, b: Octets, c: Octets, d: Octets)
    ensures a + (b + (c + d)) == (a + (b + c)) + d
  {
    Assoc(b, c, d);
    Assoc(a, b + c, d);
  }

  lemma FourParts(s: Octets, n: nat)
    requires 5 + n <= |s|
    ensures s == s[..3] + (s[3..5] + (s[5..5 + n] + s[5 + n..]))
  {
    assert s[5..] == s[5..5 + n] + s[5 + n..];
    assert s[3..] == s[3..5] + s[5..];
  }

  /** Whatever is collected was carried by handshake records at the front. */
  lemma {:induction false} CollectSound(rest: Octets, out: Octets, m: Octets) returns (rs: seq<Record>, back: Octets)
    requires CollectFrom(rest, out) == Success(m) && Begun(out)
    ensures rest == RecordsBytes(rs) + back && Carry(rs, out, m) && (rs[0].major == rest[1])
    decreases |rest|
  {
    hide RecordBytes, Begun, Whole, Complete, Finish, Be16;
    CompleteIs(out);
    var n := Be16(rest[3], rest[4]);
    var r, more := Record(rest[1], rest[2], rest[5..5 + n]), out + rest[5..5 + n];
    RecordThere(rest);
    CompleteIs(more);
    if Whole(more) {
      rs, back := [r], rest[5 + n..];
      assert RecordsBytes([r]) == RecordBytes(r) + [];
    } else {
      var tail;
      tail, back := CollectSound(rest[5 + n..], more, m);
      rs := [r] + tail;
      assert rs[1..] == tail;
      Assoc(RecordBytes(r), RecordsBytes(tail), back);
    }
  }

  lemma {:induction false} CarriedCollects(rs: seq<Record>, back: Octets, out: Octets, m: Octets)
    requires Carry(rs, out, m)
    ensures CollectFrom(RecordsBytes(rs) + back, out) == Success(m)
    decreases |rs|
  {
    hide RecordBytes, Begun, Whole, Complete, CollectFrom;
    var more := out + rs[0].payload;
    CompleteIs(more);
    RecordsStep(rs);
    Assoc(RecordBytes(rs[0]), RecordsBytes(rs[1..]), back);
    CollectStep(rs[0], RecordsBytes(rs[1..]) + back, out);
    if |rs| > 1 {
      CarriedCollects(rs[1..], back, more, m);
    }
  }

  /** A stream of handshake records, the first of TLS, whose last here completes `m`; anything may follow. */
  ghost predicate Wraps(buf: Octets, rs: seq<Record>, back: Octets, m: Octets) {
    buf == RecordsBytes(rs) + back && Carry(rs, [], m) && rs[0].major == 3
  }

  /** A message is collected exactly from a stream that starts with handshake records carrying it. */
  lemma CollectExact(buf: Octets, m: Octets)
    ensures Collect(buf) == Success(m) <==> exists rs, back :: Wraps(buf, rs, back, m)
  {
    if Collect(buf) == Success(m) {
      var rs, back := CollectSound(buf, [], m);
      assert Wraps(buf, rs, back, m);
    }
    if rs, back :| Wraps(buf, rs, back, m) {
      StreamStarts(buf, rs, back, m);
      CarriedCollects(rs, back, [], m);
    }
  }

  lemma StreamStarts(buf: Octets, rs: seq<Record>, back: Octets, m: Octets)
    requires Wraps(buf, rs, back, m)
    ensures |buf| > 5 && buf[0] == 22 && buf[1] == 3
  {
    RecordsStep(rs);
    hide RecordBytes, RecordsBytes, Begun, Whole;
    RecordShape(rs[0], RecordsBytes(rs[1..]) + back);
    Assoc(RecordBytes(rs[0]), RecordsBytes(rs[1..]), back);
  }

  /** What is no TLS handshake is told at once from five bytes; less is not enough to tell. */
  lemma OtherTraffic(buf: Octets)
    ensures |buf| < 5 ==> ParseClientHello(buf) == Failure(Incomplete)
    ensures |buf| >= 5 && (buf[0] != 22 || buf[1] != 3) ==> ParseClientHello(buf) == Failure(NotClientHello)
  {
  }
}
