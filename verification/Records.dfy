/** Lookup results as records.go keeps them, and the size estimate made from them. */
module Records {
  import opened Text

  datatype Status = StatusOK | StatusNXRRSet | StatusNXDomain | StatusFailure | StatusTimeout

  datatype Trust = TrustNone | TrustSecure | TrustInsecure | TrustBogus

  /** One resource record; `rdlen` is the wire length of the rdata, for TXT and CNAME only. */
  datatype RR = RR(owner: string, rtype: string, rdata: string, rdlen: nat)

  datatype Lookup = Lookup(
    name: string,
    qtype: string,
    status: Status,
    trust: Trust,
    records: seq<string>,
    cname: seq<string>,
    rrs: seq<RR>)
  {
    predicate Answered() {
      status == StatusOK || status == StatusNXRRSet || status == StatusNXDomain
    }

    predicate HasRecords() {
      status == StatusOK && |records| > 0
    }
  }

  function WireNameLen(name: string): nat {
    var bare := TrimSuffix(name, ".");
    if bare == "" then 1 else |bare| + 2
  }

  /** The name the size is computed for: the query name, else the first owner. */
  function SizedName(l: Lookup): string {
    if l.name == "" && |l.rrs| > 0 then l.rrs[0].owner else l.name
  }

  const HEADER := 12
  const RR_FIXED := 12

  predicate Counted(rr: RR, qtype: string) {
    rr.rtype == qtype || rr.rtype == "CNAME"
  }

  function RecordOctets(rrs: seq<RR>, qtype: string): nat {
    if rrs == [] then 0
    else (if Counted(rrs[0], qtype) then RR_FIXED + rrs[0].rdlen else 0) + RecordOctets(rrs[1..], qtype)
  }

  function AnswerOctets(l: Lookup): nat {
    if l.qtype != "TXT" then 0
    else HEADER + WireNameLen(SizedName(l)) + 4 + RecordOctets(l.rrs, l.qtype)
  }

  lemma {:induction false} RecordOctetsSnoc(rrs: seq<RR>, rr: RR, qtype: string)
    ensures RecordOctets(rrs + [rr], qtype)
         == RecordOctets(rrs, qtype) + if Counted(rr, qtype) then RR_FIXED + rr.rdlen else 0
  {
    if rrs == [] {
      assert rrs + [rr] == [rr];
    } else {
      assert (rrs + [rr])[1..] == rrs[1..] + [rr];
      RecordOctetsSnoc(rrs[1..], rr, qtype);
    }
  }

  /** The records the size counts: those of the queried type and the CNAME chain. */
  function CountedOf(rrs: seq<RR>, qtype: string): seq<RR> {
    if rrs == [] then []
    else if Counted(rrs[0], qtype) then [rrs[0]] + CountedOf(rrs[1..], qtype)
    else CountedOf(rrs[1..], qtype)
  }

  /** Other records, signatures above all, add nothing. */
  lemma {:induction false} OthersAddNothing(rrs: seq<RR>, qtype: string)
    ensures RecordOctets(CountedOf(rrs, qtype), qtype) == RecordOctets(rrs, qtype)
  {
    if rrs != [] {
      OthersAddNothing(rrs[1..], qtype);
      if Counted(rrs[0], qtype) {
        assert CountedOf(rrs, qtype)[1..] == CountedOf(rrs[1..], qtype);
      }
    }
  }

  method UdpAnswerOctets(l: Lookup) returns (size: nat)
    ensures size == AnswerOctets(l)
  {
    if l.qtype != "TXT" {
      return 0;
    }
    var name := l.name;
    if name == "" && |l.rrs| > 0 {
      name := l.rrs[0].owner;
    }
    size := HEADER + WireNameLen(name) + 4;
    for i := 0 to |l.rrs|
      invariant size == HEADER + WireNameLen(SizedName(l)) + 4 + RecordOctets(l.rrs[..i], l.qtype)
    {
      assert l.rrs[..i + 1] == l.rrs[..i] + [l.rrs[i]];
      RecordOctetsSnoc(l.rrs[..i], l.rrs[i], l.qtype);
      if Counted(l.rrs[i], l.qtype) {
        size := size + RR_FIXED + l.rrs[i].rdlen;
      }
    }
    assert l.rrs[..|l.rrs|] == l.rrs;
  }
}
