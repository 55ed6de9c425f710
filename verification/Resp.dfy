/** The RESP2 wire format: requests are arrays of bulk strings, replies are one of seven shapes. */
module Resp {
  import opened Bytes

  datatype Reply =
    | Status(text: string)
    | Error(text: string)
    | Integer(n: int)
    | Bulk(data: string)
    | NullBulk
    | Array(elems: seq<Reply>)
    | NullArray

  /** Lines end at the first carriage return, so a line cannot hold one. */
  predicate WellFormed(r: Reply) {
    match r
    case Status(text) => '\r' !in text
    case Error(text) => '\r' !in text
    case Array(elems) => forall i :: 0 <= i < |elems| ==> WellFormed(elems[i])
    case _ => true
  }

  function Encode(r: Reply): (s: string)
    ensures |s| > 0
    decreases r, 1
  {
    match r
    case Status(text) => "+" + text + CRLF
    case Error(text) => "-" + text + CRLF
    case Integer(n) => ":" + Signed(n) + CRLF
    case Bulk(data) => EncodeBulk(data)
    case NullBulk => "$-1\r\n"
    case Array(elems) => "*" + Decimal(|elems|) + CRLF + EncodeAll(elems)
    case NullArray => "*-1\r\n"
  }

  function EncodeAll(rs: seq<Reply>): string
    decreases rs, 0
  {
    if rs == [] then [] else Encode(rs[0]) + EncodeAll(rs[1..])
  }

  function EncodeBulk(data: string): (s: string)
    ensures |s| > 0
  {
    "$" + Decimal(|data|) + CRLF + data + CRLF
  }

  function EncodeBulks(args: seq<string>): string {
    if args == [] then [] else EncodeBulk(args[0]) + EncodeBulks(args[1..])
  }

  /** A command as a client sends it. */
  function EncodeCommand(args: seq<string>): string {
    "*" + Decimal(|args|) + CRLF + EncodeBulks(args)
  }

  lemma {:induction false} EncodeBulksConcat(a: seq<string>, b: seq<string>)
    ensures EncodeBulks(a + b) == EncodeBulks(a) + EncodeBulks(b)
  {
    hide EncodeBulk;
    if a == [] {
      assert a + b == b;
    } else {
      EncodeBulksConcat(a[1..], b);
      assert (a + b)[1..] == a[1..] + b;
    }
  }
}
