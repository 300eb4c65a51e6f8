/**
 * The audit log: every record carries a keyed hash over its contents and the hash of the
 * record before it. The hash is an abstract function; where it matters that it gives 32
 * bytes, or that payloads do not collide, the statements say so.
 */
module AuditChain {
  import opened Basics

  // ----- Hexadecimal text -----

  type Byte = n: int | 0 <= n < 256

  const DIGITS := "0123456789abcdef"

  function HexEncode(bytes: seq<Byte>): string {
    if bytes == [] then []
    else [DIGITS[bytes[0] / 16], DIGITS[bytes[0] % 16]] + HexEncode(bytes[1..])
  }

  /** The value of a hexadecimal digit of either case; 16 for any other character. */
  function Nibble(c: char): (n: nat)
    ensures n <= 16
  {
    if '0' <= c <= '9' then c as int - '0' as int
    else if 'a' <= c <= 'f' then c as int - 'a' as int + 10
    else if 'A' <= c <= 'F' then c as int - 'A' as int + 10
    else 16
  }

  /** `Buffer.from(text, 'hex')`: reads pairs of digits up to the first that is not one. */
  function HexDecode(text: string): seq<Byte> {
    if |text| < 2 || Nibble(text[0]) == 16 || Nibble(text[1]) == 16 then []
    else [Nibble(text[0]) * 16 + Nibble(text[1])] + HexDecode(text[2..])
  }

  lemma DigitDecodes(n: nat)
    requires n < 16
    ensures Nibble(DIGITS[n]) == n
  {
  }

  lemma {:induction false} HexRoundTrip(bytes: seq<Byte>)
    ensures HexDecode(HexEncode(bytes)) == bytes
  {
    if bytes != [] {
      DigitDecodes(bytes[0] / 16);
      DigitDecodes(bytes[0] % 16);
      HexRoundTrip(bytes[1..]);
      hide Nibble, DIGITS;
      assert HexEncode(bytes)[2..] == HexEncode(bytes[1..]);
      assert bytes == [bytes[0]] + bytes[1..];
    }
  }

  predicate HexDigit(c: char) {
    c in "0123456789abcdefABCDEF"
  }

  function LowerHex(c: char): char {
    if c in "ABCDEF" then (c as int + 32) as char else c
  }

  lemma NibbleMeaning(c: char)
    ensures Nibble(c) < 16 <==> HexDigit(c)
    ensures HexDigit(c) ==> DIGITS[Nibble(c)] == LowerHex(c)
  {
  }

  lemma EncodeCons(x: Byte, rest: seq<Byte>)
    ensures HexEncode([x] + rest) == [DIGITS[x / 16], DIGITS[x % 16]] + HexEncode(rest)
  {
    assert ([x] + rest)[1..] == rest;
  }

  lemma LowerCons(a: char, b: char, tail: string)
    ensures Map(LowerHex, [a, b] + tail) == [LowerHex(a), LowerHex(b)] + Map(LowerHex, tail)
  {
    hide LowerHex;
  }

  /** The encoding of what was read is the part of the text that was read, in lower case. */
  predicate ReadBack(text: string, bytes: seq<Byte>) {
    2 * |bytes| <= |text| && HexEncode(bytes) == Map(LowerHex, text[..2 * |bytes|])
  }

  lemma ReadPair(text: string, bytes: seq<Byte>)
    requires |text| >= 2 && HexDigit(text[0]) && HexDigit(text[1]) && ReadBack(text[2..], bytes)
    ensures Nibble(text[0]) < 16 && Nibble(text[1]) < 16
    ensures ReadBack(text, [Nibble(text[0]) * 16 + Nibble(text[1])] + bytes)
  {
    NibbleMeaning(text[0]);
    NibbleMeaning(text[1]);
    hide Nibble, HexDigit, LowerHex, HexEncode, Map;
    var high, low, n := Nibble(text[0]), Nibble(text[1]), |bytes|;
    PairDigits(high, low);
    EncodeCons(high * 16 + low, bytes);
    LowerCons(text[0], text[1], text[2..][..2 * n]);
    PairFront(text, 2 * n);
  }

  lemma PairDigits(high: nat, low: nat)
    requires high < 16 && low < 16
    ensures high * 16 + low < 256 && (high * 16 + low) / 16 == high && (high * 16 + low) % 16 == low
  {
  }

  lemma PairFront(text: string, n: nat)
    requires |text| >= n + 2
    ensures text[..n + 2] == [text[0], text[1]] + text[2..][..n]
  {
  }

  predicate StopsAt(text: string, n: nat) {
    |text| >= 2 * n + 2 ==> !HexDigit(text[2 * n]) || !HexDigit(text[2 * n + 1])
  }

  lemma DecodeStep(text: string)
    ensures |text| >= 2 && HexDigit(text[0]) && HexDigit(text[1]) ==>
              && Nibble(text[0]) < 16 && Nibble(text[1]) < 16
              && HexDecode(text) == [Nibble(text[0]) * 16 + Nibble(text[1])] + HexDecode(text[2..])
    ensures |text| < 2 || !HexDigit(text[0]) || !HexDigit(text[1]) ==> HexDecode(text) == [] && StopsAt(text, 0)
  {
    if |text| >= 2 {
      NibbleMeaning(text[0]);
      NibbleMeaning(text[1]);
    }
    hide Nibble, HexDigit;
  }

  lemma StopsLater(text: string, n: nat)
    requires |text| >= 2 && StopsAt(text[2..], n)
    ensures StopsAt(text, n + 1)
  {
    hide HexDigit;
  }

  lemma NothingRead(text: string)
    ensures ReadBack(text, [])
  {
    assert Map(LowerHex, text[..0]) == [];
  }

  /**
   * The other way round: decoding reads digits of either case, by pairs, as far as there
   * are any, and encoding gives them back in lower case.
   */
  lemma {:induction false} HexDecodeMeaning(text: string)
    ensures ReadBack(text, HexDecode(text)) && StopsAt(text, |HexDecode(text)|)
  {
    DecodeStep(text);
    if |text| >= 2 && HexDigit(text[0]) && HexDigit(text[1]) {
      HexDecodeMeaning(text[2..]);
      ReadPair(text, HexDecode(text[2..]));
      StopsLater(text, |HexDecode(text[2..])|);
      hide *;
    } else {
      NothingRead(text);
      hide *;
    }
  }

  /** `auditHashesEqual`: both texts decode to the same 32 bytes. */
  predicate HashesEqual(left: string, right: string) {
    |HexDecode(left)| == 32 && |HexDecode(right)| == 32 && HexDecode(left) == HexDecode(right)
  }

  // ----- Records -----

  datatype Content = Content(
    id: string,
    organizationId: Option<string>,
    userId: Option<string>,
    actor: string,
    action: string,
    resourceType: string,
    resourceId: Option<string>,
    outcome: string,
    ip: Option<string>,
    userAgent: Option<string>,
    metadata: string,
    occurredAt: string)

  datatype Integrity = Integrity(keyId: string, sequence: nat, previousHash: Option<string>, hash: string)

  /** Integrity is absent on records written before it was introduced. */
  datatype AuditRecord = AuditRecord(content: Content, integrity: Option<Integrity>)

  /** What the hash is computed over. */
  datatype Payload = Payload(keyId: string, sequence: nat, previousHash: Option<string>, content: Content)

  type Mac = Payload -> seq<Byte>

  /** The keyed hash has 32 bytes. */
  ghost predicate Wide(mac: Mac) {
    forall p :: |mac(p)| == 32
  }

  /** Two different payloads among these share a hash. */
  ghost predicate Collides(mac: Mac, payloads: set<Payload>) {
    exists p, q :: p in payloads && q in payloads && p != q && mac(p) == mac(q)
  }

  /** The fields the hash of a signed record is computed over. */
  function PayloadOf(record: AuditRecord): Payload
    requires record.integrity.Some?
  {
    var integrity := record.integrity.value;
    Payload(integrity.keyId, integrity.sequence, integrity.previousHash, record.content)
  }

  /** The payloads of the signed records of a log. */
  function Payloads(records: seq<AuditRecord>): set<Payload> {
    set r | r in records && r.integrity.Some? :: PayloadOf(r)
  }

  function ComputeAuditHash(mac: Mac, content: Content, sequence: nat, previousHash: Option<string>,
                            keyId: string): string
  {
    HexEncode(mac(Payload(keyId, sequence, previousHash, content)))
  }

  datatype Report = Report(
    valid: bool,
    checkedRecords: nat,
    unsignedRecords: nat,
    headHash: Option<string>,
    firstInvalidRecordId: Option<string>)

  // ----- What a report means -----

  function Signed(records: seq<AuditRecord>): (s: seq<AuditRecord>)
    ensures |s| <= |records|
  {
    Filter((r: AuditRecord) => r.integrity.Some?, records)
  }

  predicate AllSigned(s: seq<AuditRecord>) {
    forall i :: 0 <= i < |s| ==> s[i].integrity.Some?
  }

  /** The hash a signed record has to follow on from. */
  function HashBefore(s: seq<AuditRecord>, i: nat): Option<string>
    requires AllSigned(s) && i <= |s|
  {
    if i == 0 then None else Some(s[i - 1].integrity.value.hash)
  }

  predicate LinkHolds(mac: Mac, s: seq<AuditRecord>, i: nat)
    requires AllSigned(s) && i < |s|
  {
    var integrity := s[i].integrity.value;
    && integrity.previousHash == HashBefore(s, i)
    && HashesEqual(integrity.hash,
                   ComputeAuditHash(mac, s[i].content, integrity.sequence, HashBefore(s, i), integrity.keyId))
  }

  predicate HoldsBefore(mac: Mac, s: seq<AuditRecord>, k: nat)
    requires AllSigned(s) && k <= |s|
  {
    forall i :: 0 <= i < k ==> LinkHolds(mac, s, i)
  }

  /** A report counts the signed records before the first broken link and names the record there. */
  predicate Reports(mac: Mac, records: seq<AuditRecord>, report: Report) {
    var s, k := Signed(records), report.checkedRecords;
    && AllSigned(s) && k <= |s| <= |records|
    && HoldsBefore(mac, s, k)
    && report.valid == (k == |s|)
    && (k < |s| ==> !LinkHolds(mac, s, k))
    && report.unsignedRecords == |records| - k
    && report.headHash == HashBefore(s, k)
    && report.firstInvalidRecordId == (if k < |s| then Some(s[k].content.id) else None)
  }

  lemma {:induction false} SignedAreSigned(records: seq<AuditRecord>)
    ensures AllSigned(Signed(records))
  {
    if records != [] {
      SignedAreSigned(records[1..]);
    }
  }

  lemma LinkUnfolds(mac: Mac, s: seq<AuditRecord>, i: nat)
    requires AllSigned(s) && i < |s|
    ensures var r := s[i].integrity.value;
            var expected := ComputeAuditHash(mac, s[i].content, r.sequence, HashBefore(s, i), r.keyId);
            LinkHolds(mac, s, i) == (r.previousHash == HashBefore(s, i) && HashesEqual(r.hash, expected))
  {
    hide HashesEqual, ComputeAuditHash;
  }

  lemma SignedEmpty()
    ensures Signed([]) == []
  {
  }

  class InMemoryAuditLog {
    const mac: Mac
    const keyId: string
    var records: seq<AuditRecord>

    constructor (mac: Mac, keyId: string)
      ensures records == [] && this.mac == mac && this.keyId == keyId
    {
      this.mac, this.keyId, records := mac, keyId, [];
    }

    method Record(entry: Content) returns (record: AuditRecord)
      modifies this`records
      ensures record == NextRecord(mac, keyId, old(records), entry)
      ensures records == old(records) + [record]
    {
      var previousHash := None;
      if records != [] && records[|records| - 1].integrity.Some? {
        previousHash := Some(records[|records| - 1].integrity.value.hash);
      }
      var sequence := |records| + 1;
      var hash := ComputeAuditHash(mac, entry, sequence, previousHash, keyId);
      record := AuditRecord(entry, Some(Integrity(keyId, sequence, previousHash, hash)));
      records := records + [record];
    }

    method VerifyIntegrity() returns (report: Report)
      ensures Reports(mac, records, report)
    {
      hide HashesEqual, ComputeAuditHash, Signed, LinkHolds;
      var previousHash: Option<string> := None;
      var checkedRecords := 0;
      ghost var s := Signed(records);
      SignedAreSigned(records);
      assert records[0..] == records;
      var n := 0;
      while n < |records|
        invariant 0 <= n <= |records|
        invariant checkedRecords <= |s| && s == s[..checkedRecords] + Signed(records[n..])
        invariant HoldsBefore(mac, s, checkedRecords) && previousHash == HashBefore(s, checkedRecords)
      {
        var record := records[n];
        assert records[n..] == [record] + records[n + 1..];
        SignedCons(record, records[n + 1..]);
        if record.integrity.Some? {
          var integrity := record.integrity.value;
          assert s[checkedRecords] == record;
          LinkUnfolds(mac, s, checkedRecords);
          var expected := ComputeAuditHash(mac, record.content, integrity.sequence, previousHash, integrity.keyId);
          if integrity.previousHash != previousHash || !HashesEqual(integrity.hash, expected) {
            return Report(false, checkedRecords, |records| - checkedRecords, previousHash, Some(record.content.id));
          }
          previousHash := Some(integrity.hash);
          checkedRecords := checkedRecords + 1;
        }
        n := n + 1;
      }
      assert records[n..] == [];
      SignedEmpty();
      report := Report(true, checkedRecords, |records| - checkedRecords, previousHash, None);
    }
  }

  lemma SignedCons(record: AuditRecord, rest: seq<AuditRecord>)
    ensures Signed([record] + rest) == (if record.integrity.Some? then [record] else []) + Signed(rest)
  {
    FilterCons((r: AuditRecord) => r.integrity.Some?, record, rest);
  }

  lemma SignedConcat(a: seq<AuditRecord>, b: seq<AuditRecord>)
    ensures Signed(a + b) == Signed(a) + Signed(b)
  {
    FilterConcat((r: AuditRecord) => r.integrity.Some?, a, b);
  }

  // ----- Logs built by recording -----

  function NextRecord(mac: Mac, keyId: string, records: seq<AuditRecord>, entry: Content): AuditRecord {
    var previousHash :=
      if records != [] && records[|records| - 1].integrity.Some?
      then Some(records[|records| - 1].integrity.value.hash)
      else None;
    var sequence := |records| + 1;
    var hash := ComputeAuditHash(mac, entry, sequence, previousHash, keyId);
    AuditRecord(entry, Some(Integrity(keyId, sequence, previousHash, hash)))
  }

  function Recorded(mac: Mac, keyId: string, entries: seq<Content>): seq<AuditRecord> {
    if entries == [] then []
    else
      var earlier := Recorded(mac, keyId, entries[..|entries| - 1]);
      earlier + [NextRecord(mac, keyId, earlier, entries[|entries| - 1])]
  }

  /** The first broken link, or the number of records if there is none. */
  lemma {:induction false} FirstBroken(mac: Mac, s: seq<AuditRecord>, k: nat) returns (n: nat)
    requires AllSigned(s) && k <= |s| && HoldsBefore(mac, s, k)
    ensures n <= |s| && HoldsBefore(mac, s, n) && (n < |s| ==> !LinkHolds(mac, s, n))
    decreases |s| - k
  {
    hide LinkHolds;
    if k < |s| && LinkHolds(mac, s, k) {
      n := FirstBroken(mac, s, k + 1);
    } else {
      n := k;
    }
  }

  /** Some report always applies. */
  lemma ReportExists(mac: Mac, records: seq<AuditRecord>) returns (report: Report)
    ensures Reports(mac, records, report)
  {
    hide LinkHolds, Signed;
    var s := Signed(records);
    SignedAreSigned(records);
    var k := FirstBroken(mac, s, 0);
    var invalid := if k < |s| then Some(s[k].content.id) else None;
    report := Report(k == |s|, k, |records| - k, HashBefore(s, k), invalid);
  }

  /** And only one. */
  lemma ReportIsDetermined(mac: Mac, records: seq<AuditRecord>, a: Report, b: Report)
    requires Reports(mac, records, a) && Reports(mac, records, b)
    ensures a == b
  {
    hide Signed, LinkHolds;
  }

  /** Whether every link of the log holds, the whole log being checked. */
  predicate Verifies(mac: Mac, records: seq<AuditRecord>) {
    var s := Signed(records);
    AllSigned(s) && HoldsBefore(mac, s, |s|)
  }

  lemma ValidMeansVerifies(mac: Mac, records: seq<AuditRecord>, report: Report)
    requires Reports(mac, records, report)
    ensures report.valid <==> Verifies(mac, records)
  {
    hide Signed, LinkHolds;
  }

  lemma OwnHashHolds(mac: Mac, payload: Payload)
    requires |mac(payload)| == 32
    ensures HashesEqual(HexEncode(mac(payload)), HexEncode(mac(payload)))
  {
    HexRoundTrip(mac(payload));
  }

  lemma LinkDependsOnPrefix(mac: Mac, s: seq<AuditRecord>, t: seq<AuditRecord>, i: nat)
    requires AllSigned(s) && AllSigned(t) && i < |s| && i < |t| && s[..i + 1] == t[..i + 1]
    ensures LinkHolds(mac, s, i) == LinkHolds(mac, t, i)
  {
    hide HashesEqual, ComputeAuditHash;
    assert s[i] == s[..i + 1][i] == t[..i + 1][i] == t[i];
    assert i > 0 ==> s[i - 1] == s[..i + 1][i - 1] == t[..i + 1][i - 1] == t[i - 1];
  }

  lemma PrefixHolds(mac: Mac, s: seq<AuditRecord>, t: seq<AuditRecord>, k: nat)
    requires AllSigned(s) && AllSigned(t) && k <= |s| && k <= |t| && s[..k] == t[..k]
    ensures HoldsBefore(mac, s, k) == HoldsBefore(mac, t, k)
  {
    hide LinkHolds;
    forall i | 0 <= i < k
      ensures LinkHolds(mac, s, i) == LinkHolds(mac, t, i)
    {
      assert s[..i + 1] == s[..k][..i + 1] == t[..k][..i + 1] == t[..i + 1];
      LinkDependsOnPrefix(mac, s, t, i);
    }
  }

  /**
   * Recording onto a log that verifies gives a log that verifies exactly when the last
   * record is signed or none is: behind an unsigned record the chain would start afresh.
   */
  lemma RecordingKeepsVerified(mac: Mac, keyId: string, records: seq<AuditRecord>, entry: Content)
    requires Wide(mac) && Verifies(mac, records)
    ensures Verifies(mac, records + [NextRecord(mac, keyId, records, entry)])
       <==> Signed(records) == [] || records[|records| - 1].integrity.Some?
  {
    hide HashesEqual;
    var next := NextRecord(mac, keyId, records, entry);
    var s, t := Signed(records), Signed(records + [next]);
    SignedCons(next, []);
    SignedConcat(records, [next]);
    assert t == s + [next] && t[..|s|] == s;
    PrefixHolds(mac, s, t, |s|);
    var integrity := next.integrity.value;
    OwnHashHolds(mac, Payload(keyId, integrity.sequence, integrity.previousHash, entry));
    assert LinkHolds(mac, t, |s|) <==> integrity.previousHash == HashBefore(t, |s|);
    if records != [] {
      LastSigned(records);
    }
  }

  lemma LastSigned(records: seq<AuditRecord>)
    requires records != []
    ensures var s, last := Signed(records), records[|records| - 1];
            last.integrity.Some? ==> s != [] && s[|s| - 1] == last
  {
    var n := |records| - 1;
    assert records == records[..n] + [records[n]];
    SignedConcat(records[..n], [records[n]]);
    SignedCons(records[n], []);
  }

  /** The record of the entry, numbered from one. */
  predicate IsEntry(record: AuditRecord, entry: Content, i: nat) {
    record.content == entry && record.integrity.Some? && record.integrity.value.sequence == i + 1
  }

  lemma {:induction false} RecordedAreSigned(mac: Mac, keyId: string, entries: seq<Content>)
    ensures var log := Recorded(mac, keyId, entries); |log| == |entries| && Signed(log) == log && AllSigned(log)
    ensures forall i :: 0 <= i < |entries| ==> IsEntry(Recorded(mac, keyId, entries)[i], entries[i], i)
  {
    if entries != [] {
      var n := |entries| - 1;
      RecordedAreSigned(mac, keyId, entries[..n]);
      var earlier := Recorded(mac, keyId, entries[..n]);
      var next := NextRecord(mac, keyId, earlier, entries[n]);
      SignedConcat(earlier, [next]);
      SignedCons(next, []);
    }
  }

  /** Every log built by recording verifies, whatever was recorded. */
  lemma {:induction false} RecordedLogsVerify(mac: Mac, keyId: string, entries: seq<Content>)
    requires Wide(mac)
    ensures Verifies(mac, Recorded(mac, keyId, entries))
  {
    if entries != [] {
      var n := |entries| - 1;
      var earlier := Recorded(mac, keyId, entries[..n]);
      RecordedLogsVerify(mac, keyId, entries[..n]);
      RecordedAreSigned(mac, keyId, entries[..n]);
      hide Verifies, NextRecord, Signed;
      RecordingKeepsVerified(mac, keyId, earlier, entries[n]);
    }
  }

  // ----- What the head hash fixes -----

  /** One hash text belongs to one record (contents, number, key and predecessor), or two payloads collide. */
  lemma HashFixesRecord(mac: Mac, s: seq<AuditRecord>, i: nat, t: seq<AuditRecord>, j: nat)
    requires AllSigned(s) && AllSigned(t) && i < |s| && j < |t|
    requires LinkHolds(mac, s, i) && LinkHolds(mac, t, j)
    requires s[i].integrity.value.hash == t[j].integrity.value.hash
    ensures Collides(mac, Payloads(s) + Payloads(t)) || (s[i] == t[j] && HashBefore(s, i) == HashBefore(t, j))
  {
    hide HexEncode, HexDecode;
    var p, q := PayloadOf(s[i]), PayloadOf(t[j]);
    HexRoundTrip(mac(p));
    HexRoundTrip(mac(q));
    assert mac(p) == mac(q);
    assert p in Payloads(s) && q in Payloads(t);
  }

  lemma {:induction false} HeadFixesChain(mac: Mac, s: seq<AuditRecord>, t: seq<AuditRecord>, i: nat, j: nat)
    requires AllSigned(s) && AllSigned(t) && i <= |s| && j <= |t|
    requires HoldsBefore(mac, s, i) && HoldsBefore(mac, t, j)
    requires HashBefore(s, i) == HashBefore(t, j)
    ensures Collides(mac, Payloads(s) + Payloads(t)) || (i == j && s[..i] == t[..j])
    decreases i
  {
    hide LinkHolds, Collides, Payloads;
    if i > 0 && j > 0 {
      HashFixesRecord(mac, s, i - 1, t, j - 1);
      if !Collides(mac, Payloads(s) + Payloads(t)) {
        HeadFixesChain(mac, s, t, i - 1, j - 1);
        assert s[..i] == s[..i - 1] + [s[i - 1]] && t[..j] == t[..j - 1] + [t[j - 1]];
      }
    }
  }

  lemma {:induction false} SignedMember(records: seq<AuditRecord>, r: AuditRecord)
    ensures r in Signed(records) <==> r in records && r.integrity.Some?
  {
    FilterMember((r: AuditRecord) => r.integrity.Some?, records, r);
  }

  lemma PayloadsOfSigned(records: seq<AuditRecord>)
    ensures Payloads(Signed(records)) == Payloads(records)
  {
    hide Signed;
    forall r
      ensures r in Signed(records) <==> r in records && r.integrity.Some?
    {
      SignedMember(records, r);
    }
  }

  /**
   * Two logs that verify with the same head hash hold the same signed records, one by
   * one, or two different payloads of theirs share a hash; where nothing is unsigned
   * they are the same log.
   */
  lemma SameHeadSameLog(mac: Mac, a: seq<AuditRecord>, b: seq<AuditRecord>, reportA: Report, reportB: Report)
    requires Reports(mac, a, reportA) && Reports(mac, b, reportB)
    requires reportA.valid && reportB.valid && reportA.headHash == reportB.headHash
    ensures Collides(mac, Payloads(a) + Payloads(b)) || Signed(a) == Signed(b)
    ensures reportA.unsignedRecords == reportB.unsignedRecords == 0
        ==> Collides(mac, Payloads(a) + Payloads(b)) || a == b
  {
    hide LinkHolds, Signed, Collides, Payloads;
    var s, t := Signed(a), Signed(b);
    HeadFixesChain(mac, s, t, |s|, |t|);
    PayloadsOfSigned(a);
    PayloadsOfSigned(b);
    assert s == s[..|s|] && t == t[..|t|];
    FullySigned(a);
    FullySigned(b);
  }

  lemma {:induction false} FullySigned(records: seq<AuditRecord>)
    ensures |Signed(records)| == |records| ==> Signed(records) == records
  {
    if records != [] {
      FullySigned(records[1..]);
      assert records == [records[0]] + records[1..];
      SignedCons(records[0], records[1..]);
    }
  }

  /** Hence no two signed records of a verified log share a hash, unless payloads of it collide. */
  lemma HashesDistinct(mac: Mac, s: seq<AuditRecord>, i: nat, j: nat)
    requires AllSigned(s) && HoldsBefore(mac, s, |s|) && i <= |s| && j <= |s|
    ensures HashBefore(s, i) == HashBefore(s, j) ==> i == j || Collides(mac, Payloads(s))
  {
    hide LinkHolds, Collides;
    if HashBefore(s, i) == HashBefore(s, j) {
      HeadFixesChain(mac, s, s, i, j);
      assert Payloads(s) + Payloads(s) == Payloads(s);
    }
  }

  // ----- What tampering does -----

  /** The report names this record after so many verified ones. */
  predicate ReportedAt(report: Report, checked: nat, record: AuditRecord) {
    !report.valid && report.checkedRecords == checked && report.firstInvalidRecordId == Some(record.content.id)
  }

  /** The position, among the signed records, of the record at p. */
  function Rank(records: seq<AuditRecord>, p: nat): nat
    requires p <= |records|
  {
    |Signed(records[..p])|
  }

  lemma SignedSplit(records: seq<AuditRecord>, p: nat)
    requires p < |records| && records[p].integrity.Some?
    ensures Signed(records) == Signed(records[..p]) + [records[p]] + Signed(records[p + 1..])
  {
    hide Signed;
    assert records == records[..p] + ([records[p]] + records[p + 1..]);
    SignedConcat(records[..p], [records[p]] + records[p + 1..]);
    SignedCons(records[p], records[p + 1..]);
  }

  /** The hash of the last signed record. */
  function HeadOf(records: seq<AuditRecord>): Option<string> {
    var s := Signed(records);
    if s != [] && s[|s| - 1].integrity.Some? then Some(s[|s| - 1].integrity.value.hash) else None
  }

  /** The record carries, up to the case of its digits, the hash of its own fields. */
  predicate SelfConsistent(mac: Mac, record: AuditRecord)
    requires record.integrity.Some?
  {
    HexDecode(record.integrity.value.hash) == mac(PayloadOf(record))
  }

  lemma LinkIsConsistency(mac: Mac, s: seq<AuditRecord>, i: nat)
    requires Wide(mac) && AllSigned(s) && i < |s|
    ensures LinkHolds(mac, s, i)
       <==> s[i].integrity.value.previousHash == HashBefore(s, i) && SelfConsistent(mac, s[i])
  {
    hide HexEncode, HexDecode;
    var integrity := s[i].integrity.value;
    HexRoundTrip(mac(Payload(integrity.keyId, integrity.sequence, HashBefore(s, i), s[i].content)));
  }

  /**
   * Changing what a signed record says (its contents, number, key or predecessor) under
   * its old hash is reported at exactly that record, after the signed records before it,
   * unless the hash of what it says now is the same.
   */
  lemma AlteredRecordIsReported(mac: Mac, records: seq<AuditRecord>, p: nat, altered: AuditRecord, report: Report)
    requires Wide(mac) && Verifies(mac, records)
    requires p < |records| && records[p].integrity.Some? && altered.integrity.Some?
    requires mac(PayloadOf(altered)) != mac(PayloadOf(records[p]))
    requires altered.integrity.value.hash == records[p].integrity.value.hash
    requires Reports(mac, records[p := altered], report)
    ensures ReportedAt(report, Rank(records, p), altered)
    ensures report.headHash == HeadOf(records[..p])
  {
    var k, s := Rank(records, p), Signed(records);
    var t := Signed(records[p := altered]);
    SignedReplaced(records, p, altered);
    LinkIsConsistency(mac, s, k);
    LinkIsConsistency(mac, t, k);
    HeadBefore(records, p);
    hide LinkHolds, Signed;
    assert LinkHolds(mac, s, k);
    assert s[..k] == t[..k];
    PrefixHolds(mac, s, t, k);
    assert !LinkHolds(mac, t, k);
  }

  lemma SignedReplaced(records: seq<AuditRecord>, p: nat, altered: AuditRecord)
    requires p < |records| && records[p].integrity.Some? && altered.integrity.Some?
    ensures var k := Rank(records, p); k < |Signed(records)| && Signed(records)[k] == records[p]
    ensures var k := Rank(records, p); Signed(records[p := altered]) == Signed(records)[k := altered]
    ensures AllSigned(Signed(records)) && AllSigned(Signed(records[p := altered]))
  {
    hide Signed;
    SignedSplit(records, p);
    SignedSplit(records[p := altered], p);
    assert records[p := altered][..p] == records[..p] && records[p := altered][p + 1..] == records[p + 1..];
    SignedAreSigned(records);
    SignedAreSigned(records[p := altered]);
  }

  lemma HeadBefore(records: seq<AuditRecord>, p: nat)
    requires p < |records| && records[p].integrity.Some?
    ensures var s, k := Signed(records), Rank(records, p);
            k < |s| && AllSigned(s) && HashBefore(s, k) == HeadOf(records[..p])
  {
    hide Signed;
    SignedSplit(records, p);
    SignedAreSigned(records);
    SignedAreSigned(records[..p]);
  }

  /** Signed records next to each other, but for unsigned ones between them. */
  predicate Adjacent(records: seq<AuditRecord>, p: nat, q: nat) {
    && p < q < |records| && records[p].integrity.Some? && records[q].integrity.Some?
    && Signed(records[p + 1..q]) == []
  }

  lemma AdjacentRanks(records: seq<AuditRecord>, p: nat, q: nat)
    requires Adjacent(records, p, q)
    ensures Rank(records, q) == Rank(records, p) + 1
    ensures Rank(records, q) < |Signed(records)| && Signed(records)[Rank(records, q)] == records[q]
  {
    hide Signed;
    SignedSplit(records, q);
    assert records[..q] == records[..p] + ([records[p]] + records[p + 1..q]);
    SignedConcat(records[..p], [records[p]] + records[p + 1..q]);
    SignedCons(records[p], records[p + 1..q]);
  }

  /**
   * A replacement that carries a hash of its own, and the old predecessor, passes; the
   * signed record after it is reported instead.
   */
  lemma ForgedRecordIsReportedNext(mac: Mac, records: seq<AuditRecord>, p: nat, q: nat,
                                   forged: AuditRecord, report: Report)
    requires Wide(mac) && Verifies(mac, records) && Adjacent(records, p, q)
    requires forged.integrity.Some? && SelfConsistent(mac, forged)
    requires forged.integrity.value.previousHash == records[p].integrity.value.previousHash
    requires forged.integrity.value.hash != records[p].integrity.value.hash
    requires Reports(mac, records[p := forged], report)
    ensures ReportedAt(report, Rank(records, q), records[q])
  {
    var k, s := Rank(records, p), Signed(records);
    var t := Signed(records[p := forged]);
    SignedReplaced(records, p, forged);
    AdjacentRanks(records, p, q);
    LinkIsConsistency(mac, s, k);
    LinkIsConsistency(mac, t, k);
    LinkIsConsistency(mac, s, k + 1);
    LinkIsConsistency(mac, t, k + 1);
    hide LinkHolds, Signed;
    assert LinkHolds(mac, s, k) && LinkHolds(mac, s, k + 1);
    assert s[..k] == t[..k];
    PrefixHolds(mac, s, t, k);
    assert LinkHolds(mac, t, k) && !LinkHolds(mac, t, k + 1);
  }

  /**
   * Removing a signed record that another follows is reported at the one that follows,
   * unless two different payloads of the log share a hash.
   */
  lemma RemovedRecordIsReported(mac: Mac, records: seq<AuditRecord>, p: nat, q: nat, report: Report)
    requires Wide(mac) && Verifies(mac, records) && Adjacent(records, p, q)
    requires Reports(mac, records[..p] + records[p + 1..], report)
    ensures Collides(mac, Payloads(records)) || ReportedAt(report, Rank(records, p), records[q])
  {
    hide Collides;
    var k, s := Rank(records, p), Signed(records);
    var t := Signed(records[..p] + records[p + 1..]);
    SignedSplit(records, p);
    SignedConcat(records[..p], records[p + 1..]);
    AdjacentRanks(records, p, q);
    PayloadsOfSigned(records);
    hide Signed, Payloads;
    assert t == s[..k] + s[k + 1..] && t[k] == records[q];
    assert s[..k] == t[..k];
    PrefixHolds(mac, s, t, k);
    HashesDistinct(mac, s, k, k + 1);
    LinkIsConsistency(mac, s, k + 1);
    LinkIsConsistency(mac, t, k);
    hide LinkHolds;
    assert LinkHolds(mac, s, k + 1);
    assert HashBefore(t, k) == HashBefore(s, k);
    assert !Collides(mac, Payloads(records)) ==> !LinkHolds(mac, t, k);
  }

  /**
   * Cutting records off the end leaves a log that verifies; only its head hash tells, and
   * it does unless two different payloads of the log share a hash.
   */
  lemma TruncationVerifies(mac: Mac, records: seq<AuditRecord>, p: nat, report: Report)
    requires Verifies(mac, records) && p <= |records| && Reports(mac, records[..p], report)
    ensures report.valid && report.headHash == HeadOf(records[..p])
    ensures Rank(records, p) < |Signed(records)|
        ==> report.headHash != HeadOf(records) || Collides(mac, Payloads(records))
  {
    hide Signed, LinkHolds, Collides;
    var s, t := Signed(records), Signed(records[..p]);
    assert records == records[..p] + records[p..];
    SignedConcat(records[..p], records[p..]);
    PayloadsOfSigned(records);
    assert s[..|t|] == t[..|t|];
    PrefixHolds(mac, s, t, |t|);
    HashesDistinct(mac, s, |t|, |s|);
  }

  /** Records without integrity can be added, changed or removed without changing the verdict. */
  lemma UnsignedRecordsAreNotProtected(mac: Mac, a: seq<AuditRecord>, b: seq<AuditRecord>,
                                       reportA: Report, reportB: Report)
    requires Signed(a) == Signed(b) && Reports(mac, a, reportA) && Reports(mac, b, reportB)
    ensures reportB == reportA.(unsignedRecords := reportA.unsignedRecords + |b| - |a|)
  {
    hide Signed, LinkHolds;
  }

  // ----- The assumptions can be met -----

  const ENTRY := Content("", None, None, "", "", "", None, "", None, None, "", "")

  /** A stand-in hash: 32 bytes that show the number of the record. */
  function Numbered(p: Payload): seq<Byte> {
    [p.sequence % 256] + seq(31, _ => 0)
  }

  /** What the results above ask of a hash, a log, an alteration and a forgery. */
  ghost predicate Tampering(mac: Mac, log: seq<AuditRecord>, altered: AuditRecord, forged: AuditRecord) {
    && Wide(mac) && Verifies(mac, log) && !Collides(mac, Payloads(log)) && Adjacent(log, 0, 1)
    && altered.integrity.Some? && mac(PayloadOf(altered)) != mac(PayloadOf(log[0]))
    && altered.integrity.value.hash == log[0].integrity.value.hash
    && forged.integrity.Some? && SelfConsistent(mac, forged)
    && forged.integrity.value.previousHash == log[0].integrity.value.previousHash
    && forged.integrity.value.hash != log[0].integrity.value.hash
  }

  /** The first record under another number, with its old hash or with one of its own. */
  lemma Renumbered(mac: Mac, log: seq<AuditRecord>, number: nat) returns (altered: AuditRecord, forged: AuditRecord)
    requires Wide(mac) && Verifies(mac, log) && !Collides(mac, Payloads(log))
    requires Signed(log) == log && AllSigned(log) && |log| >= 2
    requires mac(PayloadOf(log[0]).(sequence := number)) != mac(PayloadOf(log[0]))
    ensures Tampering(mac, log, altered, forged)
  {
    hide HexEncode, HexDecode, Verifies, Payloads, Collides, Wide, Signed;
    var integrity := log[0].integrity.value;
    altered := AuditRecord(log[0].content, Some(integrity.(sequence := number)));
    var hash := HexEncode(mac(PayloadOf(altered)));
    forged := AuditRecord(log[0].content, Some(integrity.(sequence := number, hash := hash)));
    assert PayloadOf(altered) == PayloadOf(forged) == PayloadOf(log[0]).(sequence := number);
    HexRoundTrip(mac(PayloadOf(altered)));
    FirstHash(mac, log);
    SignedEmpty();
    assert log[1..1] == [];
  }

  lemma TamperingExists() returns (log: seq<AuditRecord>, altered: AuditRecord, forged: AuditRecord)
    ensures Tampering(Numbered, log, altered, forged) && |log| == 3
  {
    var entries := [ENTRY, ENTRY, ENTRY];
    log := Recorded(Numbered, "k", entries);
    RecordedLogsVerify(Numbered, "k", entries);
    RecordedAreSigned(Numbered, "k", entries);
    NumbersDiffer(log, entries);
    hide Recorded, Verifies, Payloads, Collides, Signed, Tampering;
    assert IsEntry(log[0], ENTRY, 0);
    assert Numbered(PayloadOf(log[0]))[0] == 1 && Numbered(PayloadOf(log[0]).(sequence := 9))[0] == 9;
    altered, forged := Renumbered(Numbered, log, 9);
  }

  lemma PayloadRecord(log: seq<AuditRecord>, p: Payload) returns (i: nat)
    requires p in Payloads(log)
    ensures i < |log| && log[i].integrity.Some? && PayloadOf(log[i]) == p
  {
    var r :| r in log && r.integrity.Some? && PayloadOf(r) == p;
    i :| 0 <= i < |log| && log[i] == r;
  }

  lemma NumbersDiffer(log: seq<AuditRecord>, entries: seq<Content>)
    requires |log| == |entries| < 255 && forall i :: 0 <= i < |log| ==> IsEntry(log[i], entries[i], i)
    ensures !Collides(Numbered, Payloads(log))
  {
    hide Payloads;
    forall p, q | p in Payloads(log) && q in Payloads(log) && Numbered(p) == Numbered(q)
      ensures p == q
    {
      assert Numbered(p)[0] == Numbered(q)[0];
      hide Numbered;
      var i := PayloadRecord(log, p);
      var j := PayloadRecord(log, q);
      assert IsEntry(log[i], entries[i], i) && IsEntry(log[j], entries[j], j);
    }
  }

  lemma FirstHash(mac: Mac, log: seq<AuditRecord>)
    requires Wide(mac) && Verifies(mac, log) && Signed(log) == log && log != []
    ensures log[0].integrity.Some? && HexDecode(log[0].integrity.value.hash) == mac(PayloadOf(log[0]))
  {
    hide HexDecode, Signed;
    LinkIsConsistency(mac, log, 0);
  }
}
