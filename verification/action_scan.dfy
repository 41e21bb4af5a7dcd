/** The action-list length scanner: `ofl_utils_count_ofp_actions` counts the
    action records packed into a network-supplied buffer, checking each
    record's framing before anything interprets it.

    Each record starts with the OpenFlow 1.3 action header (section A.2.5 of
    the OpenFlow Switch Specification 1.3): `type:16`, `len:16`, 4 pad bytes.
    The scanner only needs `len`, at bytes 2 and 3, big-endian. */
module ActionScan {
  import opened ByteOrder
  import opened ActionErrors

  /** `sizeof(struct ofp_action_header)`. */
  const OFP_ACTION_HEADER_SIZE: nat := 8

  /** The least a record may declare, and the least the scanner looks at:
      four bytes short of a full header, so that the last bucket of a group
      may omit its padding. */
  const MIN_ACTION_LEN: nat := OFP_ACTION_HEADER_SIZE - 4

  /** What a scan ends with: every record framed (possibly with a short tail
      left over), or a malformed record after `count` good ones. */
  datatype ScanResult = Complete(count: nat) | Malformed(count: nat)
  {
    /** The same verdict with `k` more records counted in front. */
    function Plus(k: nat): ScanResult
    {
      match this
      case Complete(n) => Complete(n + k)
      case Malformed(n) => Malformed(n + k)
    }
  }

  /** The declared length of the record at the front of `buf`. */
  function HeaderLen(buf: seq<byte>): u16
    requires |buf| >= MIN_ACTION_LEN
  {
    Be16At(buf, 2)
  }

  /** The declared length is `ntohs(act->len)`, the big-endian value of
      bytes 2 and 3 of the header. */
  lemma HeaderLenIsNtohs(buf: seq<byte>)
    requires |buf| >= MIN_ACTION_LEN
    ensures HeaderLen(buf) == Ntohs(buf[2..4])
  {
    Be16AtIsNtohs(buf, 2);
  }

  /** A record header the scanner rejects: its declared length overruns
      the bytes left, or is below the minimum. */
  predicate BadHeader(buf: seq<byte>)
  {
    |buf| >= MIN_ACTION_LEN && (|buf| < HeaderLen(buf) || HeaderLen(buf) < MIN_ACTION_LEN)
  }

  /** The scan as a recursive definition: peel one record off the front. */
  function ScanActions(buf: seq<byte>): ScanResult
  {
    if |buf| < MIN_ACTION_LEN then Complete(0)
    else if BadHeader(buf) then Malformed(0)
    else ScanActions(buf[HeaderLen(buf)..]).Plus(1)
  }

  /** Every counted record is at least 4 bytes long, so the count never
      exceeds the buffer length divided by 4, on success or failure. */
  lemma {:induction false} ScanCountBound(buf: seq<byte>)
    ensures ScanActions(buf).count <= |buf| / MIN_ACTION_LEN
  {
    if |buf| >= MIN_ACTION_LEN && !BadHeader(buf) {
      var len := HeaderLen(buf);
      ScanCountBound(buf[len..]);
      assert (|buf| - len) / MIN_ACTION_LEN + 1 <= |buf| / MIN_ACTION_LEN;
    }
  }

  /** The same scan from offset `off` on, reading the buffer in place. */
  function ScanAt(data: seq<byte>, off: nat): ScanResult
    requires off <= |data|
    decreases |data| - off
  {
    if |data| - off < MIN_ACTION_LEN then Complete(0)
    else
      var len := Be16At(data, off + 2);
      if |data| - off < len || len < MIN_ACTION_LEN then Malformed(0)
      else ScanAt(data, off + len).Plus(1)
  }

  /** Scanning in place from `off` is scanning `rest`, the buffer from `off` on. */
  lemma {:induction false} ScanAtIsScan(data: seq<byte>, off: nat, rest: seq<byte>)
    requires off <= |data| && rest == data[off..]
    ensures ScanAt(data, off) == ScanActions(rest)
    decreases |rest|
  {
    if |rest| >= MIN_ACTION_LEN {
      var len := Be16At(data, off + 2);
      assert rest[2] == data[off + 2] && rest[3] == data[off + 3];
      if !(|rest| < len || len < MIN_ACTION_LEN) {
        ScanAtIsScan(data, off + len, rest[len..]);
      }
    }
  }

  /** The scan as the source writes it: a loop over a cursor `d` and the
      bytes left `dataLen`, which starts as the whole buffer. Each turn reads
      the header's `len` at `d + 2` and `d + 3`, inside the buffer. */
  method CountOfpActions(data: seq<byte>) returns (err: Status, count: nat)
    ensures err == Ok <==> ScanActions(data).Complete?
    ensures err == Ok || err == Err(BadLen)
    ensures count == ScanActions(data).count
  {
    ScanAtIsScan(data, 0, data);
    var dataLen: nat := |data|;
    var d: nat := 0;
    count := 0;
    while dataLen >= MIN_ACTION_LEN
      invariant d + dataLen == |data|
      invariant ScanAt(data, 0) == ScanAt(data, d).Plus(count)
    {
      var len := Be16At(data, d + 2);
      if dataLen < len || len < MIN_ACTION_LEN {
        return Err(BadLen), count;
      }
      dataLen := dataLen - len;
      d := d + len;
      count := count + 1;
    }
    return Ok, count;
  }

  // ---------------------------------------------------------------------
  // An independent description: a buffer is a run of well-framed records
  // followed by a remainder.

  /** A complete record: its header fits and it declares exactly its own size. */
  predicate IsRecord(r: seq<byte>)
  {
    |r| >= MIN_ACTION_LEN && HeaderLen(r) == |r|
  }

  predicate AllRecords(rs: seq<seq<byte>>)
  {
    forall i | 0 <= i < |rs| :: IsRecord(rs[i])
  }

  function Concat(rs: seq<seq<byte>>): seq<byte>
  {
    if rs == [] then [] else rs[0] + Concat(rs[1..])
  }

  /** The sum of the lengths the records declare in their headers. */
  function DeclaredTotal(rs: seq<seq<byte>>): nat
    requires forall i | 0 <= i < |rs| :: |rs[i]| >= MIN_ACTION_LEN
  {
    if rs == [] then 0 else HeaderLen(rs[0]) + DeclaredTotal(rs[1..])
  }

  lemma AllRecordsTail(rs: seq<seq<byte>>)
    requires rs != [] && AllRecords(rs)
    ensures IsRecord(rs[0]) && AllRecords(rs[1..])
  {
    forall i | 0 <= i < |rs| - 1
      ensures IsRecord(rs[1..][i])
    {
      assert rs[1..][i] == rs[i + 1];
    }
  }

  lemma ConsRecord(r: seq<byte>, rs: seq<seq<byte>>)
    requires IsRecord(r) && AllRecords(rs)
    ensures AllRecords([r] + rs) && Concat([r] + rs) == r + Concat(rs)
  {
    assert ([r] + rs)[1..] == rs;
    forall i | 0 <= i < |rs| + 1
      ensures IsRecord(([r] + rs)[i])
    {
      if i > 0 {
        assert ([r] + rs)[i] == rs[i - 1];
      }
    }
  }

  /** Well-framed records in front of any buffer are each counted once and
      leave the verdict on the rest unchanged. */
  lemma {:induction false} ScanPrefixRecords(rs: seq<seq<byte>>, rest: seq<byte>)
    requires AllRecords(rs)
    ensures ScanActions(Concat(rs) + rest) == ScanActions(rest).Plus(|rs|)
  {
    if rs == [] {
      assert Concat(rs) + rest == rest;
    } else {
      AllRecordsTail(rs);
      var buf := Concat(rs) + rest;
      var after := Concat(rs[1..]) + rest;
      assert buf == rs[0] + after;
      assert buf[2] == rs[0][2] && buf[3] == rs[0][3];
      assert buf[|rs[0]|..] == after;
      ScanPrefixRecords(rs[1..], rest);
    }
  }

  /** Records that exactly partition the buffer, up to a tail shorter than
      the minimum, are all counted and the scan succeeds. */
  lemma ScanOfRecords(rs: seq<seq<byte>>, tail: seq<byte>)
    requires AllRecords(rs) && |tail| < MIN_ACTION_LEN
    ensures ScanActions(Concat(rs) + tail) == Complete(|rs|)
  {
    ScanPrefixRecords(rs, tail);
  }

  /** The first malformed header fails the scan, with the records before it
      counted. */
  lemma ScanOfBadRecord(rs: seq<seq<byte>>, rest: seq<byte>)
    requires AllRecords(rs) && BadHeader(rest)
    ensures ScanActions(Concat(rs) + rest) == Malformed(|rs|)
  {
    ScanPrefixRecords(rs, rest);
  }

  /** The buffer cut into the records the scan accepts and what is left. */
  function Split(buf: seq<byte>): (seq<seq<byte>>, seq<byte>)
  {
    if |buf| < MIN_ACTION_LEN || BadHeader(buf) then ([], buf)
    else
      var p := Split(buf[HeaderLen(buf)..]);
      ([buf[..HeaderLen(buf)]] + p.0, p.1)
  }

  /** Every buffer splits into well-framed records followed by a remainder
      that is either too short to hold a header or starts with a bad one. */
  lemma {:induction false} SplitFrames(buf: seq<byte>)
    ensures var (rs, rest) := Split(buf);
      && AllRecords(rs) && buf == Concat(rs) + rest
      && (|rest| < MIN_ACTION_LEN || BadHeader(rest))
  {
    if |buf| < MIN_ACTION_LEN || BadHeader(buf) {
      assert buf == Concat([]) + buf;
    } else {
      var len := HeaderLen(buf);
      SplitFrames(buf[len..]);
      SplitStep(buf, Split(buf[len..]).0, Split(buf[len..]).1);
    }
  }

  /** One step of the split: a good header in front of a framed rest. */
  lemma SplitStep(buf: seq<byte>, rs: seq<seq<byte>>, rest: seq<byte>)
    requires |buf| >= MIN_ACTION_LEN && !BadHeader(buf)
    requires AllRecords(rs) && buf[HeaderLen(buf)..] == Concat(rs) + rest
    ensures AllRecords([buf[..HeaderLen(buf)]] + rs)
    ensures buf == Concat([buf[..HeaderLen(buf)]] + rs) + rest
  {
    var len := HeaderLen(buf);
    var r := buf[..len];
    assert r[2] == buf[2] && r[3] == buf[3];
    ConsRecord(r, rs);
    assert buf == r + buf[len..];
  }

  lemma {:induction false} DeclaredTotalOfRecords(rs: seq<seq<byte>>)
    requires AllRecords(rs)
    ensures DeclaredTotal(rs) == |Concat(rs)|
  {
    if rs != [] {
      AllRecordsTail(rs);
      DeclaredTotalOfRecords(rs[1..]);
    }
  }

  /** The verdict read off the split: success exactly when the remainder is
      shorter than the minimum, and the count is the number of records in
      front of the remainder. */
  lemma ScanMeansSplit(buf: seq<byte>)
    ensures var (rs, rest) := Split(buf);
      ScanActions(buf) == (if |rest| < MIN_ACTION_LEN then Complete(|rs|) else Malformed(|rs|))
  {
    var (rs, rest) := Split(buf);
    SplitFrames(buf);
    ScanPrefixRecords(rs, rest);
  }

  /** On success the declared lengths of the counted records add up to the
      buffer length less a remainder shorter than the minimum. */
  lemma ScanConsumesAllButTail(buf: seq<byte>)
    requires ScanActions(buf).Complete?
    ensures var (rs, rest) := Split(buf);
      && |rs| == ScanActions(buf).count
      && AllRecords(rs)
      && DeclaredTotal(rs) == |buf| - |rest|
      && |rest| < MIN_ACTION_LEN
  {
    var (rs, rest) := Split(buf);
    ScanMeansSplit(buf);
    SplitFrames(buf);
    DeclaredTotalOfRecords(rs);
  }

  /** On failure the remainder after the counted records starts with a
      header whose length overruns it or is below the minimum. */
  lemma ScanRejectsFirstBadRecord(buf: seq<byte>)
    requires ScanActions(buf).Malformed?
    ensures var (rs, rest) := Split(buf);
      && |rs| == ScanActions(buf).count
      && BadHeader(rest)
      && buf == Concat(rs) + rest
  {
    ScanMeansSplit(buf);
    SplitFrames(buf);
  }

  /** A 16-byte Output record (`ofp_action_output`: port 1, max_len 0xffe5,
      six bytes of padding) followed by a 16-byte SetField record carrying
      the OXM value AA BB CC DD: two records, no error. */
  lemma OutputThenSetField()
    ensures ScanActions([0, 0, 0, 16, 0, 0, 0, 1, 0xFF, 0xE5, 0, 0, 0, 0, 0, 0,
                         0, 25, 0, 16, 0, 0, 0, 4, 0xAA, 0xBB, 0xCC, 0xDD, 0, 0, 0, 0]) == Complete(2)
  {
    var buf: seq<byte> := [0, 0, 0, 16, 0, 0, 0, 1, 0xFF, 0xE5, 0, 0, 0, 0, 0, 0,
                           0, 25, 0, 16, 0, 0, 0, 4, 0xAA, 0xBB, 0xCC, 0xDD, 0, 0, 0, 0];
    assert Be16At(buf, 2) == 16 && Be16At(buf, 18) == 16;
    assert ScanAt(buf, 32) == Complete(0);
    assert ScanAt(buf, 16) == Complete(1);
    assert ScanAt(buf, 0) == Complete(2);
    ScanAtIsScan(buf, 0, buf);
  }
}
