/**
 * The slice of the DNS message model that the test responder touches: resource
 * records (owner name, type, class, TTL, opaque data), questions, requests and
 * replies. Wire encoding is not modelled; a reply is only its RCODE and its
 * answer section.
 */
module DnsTypes {
  newtype uint8 = x: int | 0 <= x < 0x100
  newtype uint16 = x: int | 0 <= x < 0x1_0000
  newtype uint32 = x: int | 0 <= x < 0x1_0000_0000

  // TYPE and QTYPE values (section 3.2.2 and 3.2.3 of RFC 1035, RFC 3596 for
  // AAAA, RFC 2782 for SRV, RFC 4408 for SPF).
  const TypeA: uint16 := 1
  const TypeNS: uint16 := 2
  const TypeCNAME: uint16 := 5
  const TypeSOA: uint16 := 6
  const TypeMX: uint16 := 15
  const TypeTXT: uint16 := 16
  const TypeAAAA: uint16 := 28
  const TypeSRV: uint16 := 33
  const TypeSPF: uint16 := 99
  const TypeANY: uint16 := 255

  // CLASS value IN (section 3.2.4 of RFC 1035).
  const ClassINET: uint16 := 1

  // RCODE values (section 4.1.1 of RFC 1035).
  const RcodeSuccess: int := 0
  const RcodeFormatError: int := 1

  /** The common header of every resource record. */
  datatype Header = Header(name: string, rrtype: uint16, rrclass: uint16, ttl: uint32)

  /** A resource record; its type-specific data is opaque and echoed back verbatim. */
  datatype RR = RR(hdr: Header, rdata: seq<uint8>)

  datatype Question = Question(name: string, qtype: uint16, qclass: uint16)

  /** An inbound request, seen only through its question section. */
  datatype Msg = Msg(question: seq<Question>)

  /** A reply: its RCODE and its answer section, in order. */
  datatype Reply = Reply(rcode: int, answer: seq<RR>)
}
