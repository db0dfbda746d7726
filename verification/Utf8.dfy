/** Well-formed UTF-8 (Table 3-7 of the Unicode Standard): what a Rust `String` may hold. */
module Utf8Text {
  import opened Bytes

  predicate Tail(b: byte) { 0x80 <= b <= 0xBF }

  /** Length of the scalar value `bs` begins with, 0 where it begins with none. */
  function ScalarLen(bs: seq<byte>): (n: nat)
    ensures n <= |bs|
  {
    if |bs| >= 1 && bs[0] <= 0x7F then 1
    else if |bs| >= 2 && 0xC2 <= bs[0] <= 0xDF && Tail(bs[1]) then 2
    else if |bs| >= 3 && Tail(bs[2]) && (
        || (bs[0] == 0xE0 && 0xA0 <= bs[1] <= 0xBF)
        || (0xE1 <= bs[0] <= 0xEC && Tail(bs[1]))
        || (bs[0] == 0xED && 0x80 <= bs[1] <= 0x9F)
        || (0xEE <= bs[0] <= 0xEF && Tail(bs[1]))) then 3
    else if |bs| >= 4 && Tail(bs[2]) && Tail(bs[3]) && (
        || (bs[0] == 0xF0 && 0x90 <= bs[1] <= 0xBF)
        || (0xF1 <= bs[0] <= 0xF3 && Tail(bs[1]))
        || (bs[0] == 0xF4 && 0x80 <= bs[1] <= 0x8F)) then 4
    else 0
  }

  predicate Utf8(bs: seq<byte>) {
    bs == [] || (ScalarLen(bs) > 0 && Utf8(bs[ScalarLen(bs)..]))
  }

  type Text = bs: seq<byte> | Utf8(bs) witness []

  predicate Ascii(bs: seq<byte>) {
    forall i :: 0 <= i < |bs| ==> bs[i] < 128
  }

  lemma {:induction false} AsciiIsUtf8(bs: seq<byte>)
    requires Ascii(bs)
    ensures Utf8(bs)
  {
    if bs != [] {
      AsciiIsUtf8(bs[1..]);
    }
  }
}
