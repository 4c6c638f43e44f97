/**
 * JavaScript's `encodeURIComponent` on strings of Unicode scalar values: the unreserved
 * characters stay, every other character becomes the `%XX` escapes of its UTF-8 bytes.
 */
module UriComponent {

  /** The characters `encodeURIComponent` leaves alone. */
  predicate Unreserved(c: char) {
    ('A' <= c <= 'Z') || ('a' <= c <= 'z') || ('0' <= c <= '9')
    || c == '-' || c == '_' || c == '.' || c == '!' || c == '~' || c == '*' || c == '\'' || c == '(' || c == ')'
  }

  predicate HexDigit(c: char) {
    ('0' <= c <= '9') || ('A' <= c <= 'F')
  }

  /** What an encoded string may contain. */
  predicate EncodedChar(c: char) {
    Unreserved(c) || c == '%'
  }

  function Hex(n: nat): (c: char)
    requires n < 16
    ensures HexDigit(c)
  {
    if n < 10 then ('0' as int + n) as char else ('A' as int + n - 10) as char
  }

  /** The UTF-8 encoding of one scalar value. */
  function Utf8(c: char): (bytes: seq<nat>)
    ensures 1 <= |bytes| <= 4
    ensures forall i :: 0 <= i < |bytes| ==> bytes[i] < 256
    ensures (c as int < 0x80) <==> |bytes| == 1
  {
    var cp := c as int;
    if cp < 0x80 then [cp]
    else if cp < 0x800 then [0xC0 + cp / 64, 0x80 + cp % 64]
    else if cp < 0x1_0000 then [0xE0 + cp / 4096, 0x80 + (cp / 64) % 64, 0x80 + cp % 64]
    else [0xF0 + cp / 262144, 0x80 + (cp / 4096) % 64, 0x80 + (cp / 64) % 64, 0x80 + cp % 64]
  }

  /** `%XX` for each byte, with upper-case hex digits. */
  function Escape(bytes: seq<nat>): (r: string)
    requires forall i :: 0 <= i < |bytes| ==> bytes[i] < 256
    ensures |r| == 3 * |bytes|
    ensures forall i :: 0 <= i < |r| ==> (r[i] == '%' <==> i % 3 == 0)
    ensures forall i :: 0 <= i < |r| ==> i % 3 != 0 ==> HexDigit(r[i])
  {
    if |bytes| == 0 then ""
    else ['%', Hex(bytes[0] / 16), Hex(bytes[0] % 16)] + Escape(bytes[1..])
  }

  function EncodeChar(c: char): (r: string)
    ensures Unreserved(c) ==> r == [c]
    ensures !Unreserved(c) ==> |r| >= 3 && r[0] == '%'
    ensures forall i :: 0 <= i < |r| ==> EncodedChar(r[i])
  {
    if Unreserved(c) then [c] else Escape(Utf8(c))
  }

  /** `encodeURIComponent(s)`. */
  function Encode(s: string): (r: string)
    ensures |r| >= |s|
    ensures forall i :: 0 <= i < |r| ==> EncodedChar(r[i])
  {
    if |s| == 0 then "" else EncodeChar(s[0]) + Encode(s[1..])
  }

  /** A string of unreserved characters encodes to itself. */
  lemma {:induction false} EncodeUnreservedIsIdentity(s: string)
    requires forall i :: 0 <= i < |s| ==> Unreserved(s[i])
    ensures Encode(s) == s
  {
    if |s| != 0 {
      EncodeUnreservedIsIdentity(s[1..]);
      assert s == [s[0]] + s[1..];
    }
  }

  /** Encoding distributes over concatenation, character by character. */
  lemma {:induction false} EncodeAppend(s: string, t: string)
    ensures Encode(s + t) == Encode(s) + Encode(t)
  {
    if |s| == 0 {
      assert s + t == t;
    } else {
      assert (s + t)[1..] == s[1..] + t;
      EncodeAppend(s[1..], t);
    }
  }

  /** The search scenario's terms, `"test"`, need no escaping; a space becomes `%20`. */
  lemma EncodeExamples()
    ensures Encode("test") == "test"
    ensures Encode("a b") == "a%20b"
  {
    EncodeUnreservedIsIdentity("test");
    assert "a b" == "a" + " " + "b";
    EncodeAppend("a", " ");
    EncodeAppend("a" + " ", "b");
    EncodeUnreservedIsIdentity("a");
    EncodeUnreservedIsIdentity("b");
    assert Encode(" ") == EncodeChar(' ') + Encode("");
  }
}
