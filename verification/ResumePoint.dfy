/** The resume point of an SSE session: frame ids and the Last-Event-ID header of internal/server/sse.go. */
module ResumePoint {
  import opened Basics

  const MAX_UINT64: nat := 0xFFFF_FFFF_FFFF_FFFF

  /** Reading digits from the left: the first bad character or the first overflow decides. */
  datatype Scan = Number(n: nat) | BadSyntax | OutOfRange

  function ScanUint(s: string): Scan {
    if s == [] then Number(0)
    else
      var front, c := ScanUint(s[..|s| - 1]), Last(s);
      if !front.Number? then front
      else if !('0' <= c <= '9') then BadSyntax
      else if front.n * 10 + (c - '0') as nat > MAX_UINT64 then OutOfRange
      else Number(front.n * 10 + (c - '0') as nat)
  }

  /** The parse error is discarded: no digits or a bad character resume from the start,
      an id beyond 64 bits saturates. */
  function LastEventId(header: string, query: string): nat {
    match ScanUint(if header != "" then header else query)
    case Number(n) => n
    case BadSyntax => 0
    case OutOfRange => MAX_UINT64
  }

  /** A frame id as it is written. */
  function FrameId(seqNo: nat): string {
    var digit := [('0' as int + seqNo % 10) as char];
    if seqNo < 10 then digit else FrameId(seqNo / 10) + digit
  }

  lemma {:induction false} ScanFrameId(seqNo: nat)
    requires seqNo <= MAX_UINT64
    ensures ScanUint(FrameId(seqNo)) == Number(seqNo) && FrameId(seqNo) != []
  {
    var digit := [('0' as int + seqNo % 10) as char];
    if seqNo < 10 {
      assert digit[..0] == [];
    } else {
      ScanFrameId(seqNo / 10);
      assert (FrameId(seqNo / 10) + digit)[..|FrameId(seqNo / 10)|] == FrameId(seqNo / 10);
    }
  }

  /** A client that sends back the id of the last frame it received resumes exactly there. */
  lemma ResumeRoundTrip(seqNo: nat, query: string)
    requires seqNo <= MAX_UINT64
    ensures LastEventId(FrameId(seqNo), query) == seqNo
    ensures LastEventId("", FrameId(seqNo)) == seqNo
  {
    ScanFrameId(seqNo);
  }

  predicate IsDigit(c: char) {
    48 <= c as int <= 57
  }

  /** A header that is present decides alone; without one the query does. */
  lemma HeaderComesFirst(header: string, query: string)
    ensures header != "" ==> LastEventId(header, query) == LastEventId(header, "")
    ensures LastEventId("", query) == LastEventId(query, "")
    ensures LastEventId("", "") == 0
    ensures LastEventId("10", "") == 10
  {
    assert "10"[..1] == "1" && "1"[..0] == "";
  }

  lemma {:induction false} ScanShort(s: string)
    requires |s| <= 19
    ensures (forall i :: 0 <= i < |s| ==> IsDigit(s[i])) <==> ScanUint(s).Number?
    ensures ScanUint(s).Number? ==> ScanUint(s).n < Power10(|s|)
    ensures !ScanUint(s).OutOfRange?
  {
    if s != [] {
      var front := s[..|s| - 1];
      ScanShort(front);
      FrontLast(s);
      PowerFits(|s|);
    }
  }

  function Power10(n: nat): nat {
    if n == 0 then 1 else 10 * Power10(n - 1)
  }

  lemma {:induction false} PowerGrows(n: nat, m: nat)
    requires n <= m
    ensures Power10(n) <= Power10(m)
  {
    if n < m {
      PowerGrows(n, m - 1);
    }
  }

  lemma PowerFits(n: nat)
    requires n <= 19
    ensures Power10(n) <= 10_000_000_000_000_000_000
  {
    PowerGrows(n, 19);
    assert Power10(4) == 10_000 by { assert Power10(2) == 100; }
    assert Power10(8) == 100_000_000 by { assert Power10(6) == 1_000_000; }
    assert Power10(12) == 1_000_000_000_000 by { assert Power10(10) == 10_000_000_000; }
    assert Power10(16) == 10_000_000_000_000_000 by { assert Power10(14) == 100_000_000_000_000; }
    assert Power10(18) == 1_000_000_000_000_000_000;
  }

  /** Up to 19 characters, anything but digits resumes from the start. */
  lemma GarbageStartsOver(s: string, query: string)
    requires s != "" && |s| <= 19 && exists i :: 0 <= i < |s| && !IsDigit(s[i])
    ensures LastEventId(s, query) == 0
  {
    ScanShort(s);
  }

  /** An id beyond 64 bits saturates. */
  lemma {:induction false} BeyondSaturates(seqNo: nat)
    requires seqNo > 0xFFFF_FFFF_FFFF_FFFF
    ensures ScanUint(FrameId(seqNo)).OutOfRange? && FrameId(seqNo) != []
    ensures LastEventId(FrameId(seqNo), "") == 0xFFFF_FFFF_FFFF_FFFF
  {
    var front, digit := FrameId(seqNo / 10), [('0' as int + seqNo % 10) as char];
    assert FrameId(seqNo) == front + digit && (front + digit)[..|front|] == front;
    if seqNo / 10 > MAX_UINT64 {
      BeyondSaturates(seqNo / 10);
    } else {
      ScanFrameId(seqNo / 10);
    }
  }
}
