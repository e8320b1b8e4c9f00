/**
 * The end-to-end scenario of the repository's tests: the zone
 * "example.com. 104 A 127.0.0.1" followed by an MX record for the same name,
 * queried over the model of the loader and the handler.
 */
module DnstestExamples {
  import opened Wrappers
  import opened DnsTypes
  import Ascii
  import opened Dnstest

  const ExampleA: RR := RR(Header("example.com.", TypeA, ClassINET, 104), [127, 0, 0, 1])

  /** The MX record of the zone; its data (preference and exchange) stays opaque. */
  function ExampleMX(mxData: seq<uint8>): RR {
    RR(Header("example.com.", TypeMX, ClassINET, 104), mxData)
  }

  function QueryFor(name: string, qtype: uint16): Msg {
    Msg([Question(name, qtype, ClassINET)])
  }

  lemma ExampleNameIsLower()
    ensures Ascii.Lower("example.com.") == "example.com."
  {
    Ascii.LowerFixedIffLower("example.com.");
  }

  /** Loading the two records keeps both, unchanged and in order. */
  lemma ExampleZoneLoadsUnchanged(mxData: seq<uint8>)
    ensures Loaded([ExampleA, ExampleMX(mxData)]) == [ExampleA, ExampleMX(mxData)]
  {
    ExampleNameIsLower();
  }

  /**
   * An A query for example.com. returns exactly the A record, TTL 104, and an
   * MX query exactly the MX record; a name that is not loaded gets no answers
   * and no error.
   */
  lemma {:induction false} ExampleQueries(mxData: seq<uint8>)
    ensures Respond([ExampleA, ExampleMX(mxData)], QueryFor("example.com.", TypeA))
         == Reply(RcodeSuccess, [ExampleA])
    ensures Respond([ExampleA, ExampleMX(mxData)], QueryFor("example.com.", TypeMX))
         == Reply(RcodeSuccess, [ExampleMX(mxData)])
    ensures Respond([ExampleA, ExampleMX(mxData)], QueryFor("example.org.", TypeA))
         == Reply(RcodeSuccess, [])
  {
    var records := [ExampleA, ExampleMX(mxData)];
    ExampleNameIsLower();
    assert records[..1] == [ExampleA] && records[..1][..0] == [];
    var other := Ascii.Lower("example.org.");
    assert other[8] == Ascii.LowerChar('o') == 'o';
    assert other != "example.com.";
    forall qname: string, qtype: uint16
      ensures Answer(records, qname, qtype)
           == Answer([ExampleA], qname, qtype)
              + (if Selected(qname, qtype, ExampleMX(mxData)) then [ExampleMX(mxData)] else [])
      ensures Answer([ExampleA], qname, qtype)
           == if Selected(qname, qtype, ExampleA) then [ExampleA] else []
    {
      assert [ExampleA][..0] == [];
    }
  }

  /**
   * The repository's round-trip test: load the zone, ask for the A record of
   * example.com. and get one answer, an A record for example.com. with address
   * 127.0.0.1 and TTL 104.
   */
  method Roundtrip(mxData: seq<uint8>) returns (resp: Reply)
    ensures resp.rcode == RcodeSuccess && |resp.answer| == 1
    ensures resp.answer[0].hdr.rrtype == TypeA && resp.answer[0].hdr.name == "example.com."
    ensures resp.answer[0].rdata == [127, 0, 0, 1] && resp.answer[0].hdr.ttl == 104
  {
    var loaded := LoadZone(ZoneParse([ExampleA, ExampleMX(mxData)], None));
    ExampleZoneLoadsUnchanged(mxData);
    ExampleQueries(mxData);
    resp := Handle(loaded.value, QueryFor("example.com.", TypeA));
  }
}
