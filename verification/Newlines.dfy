/** The serial driver's newline translation: every `\n` goes out as `\r\n` (kernel/src/drivers/serial.rs). */
module Newlines {
  import opened Sequences

  const CR: bv8 := 0x0D
  const LF: bv8 := 0x0A

  function EncodeByte(b: bv8): seq<bv8> {
    if b == LF then [CR, LF] else [b]
  }

  function Encode(s: seq<bv8>): seq<bv8> {
    if s == [] then [] else EncodeByte(s[0]) + Encode(s[1..])
  }

  /** What a reader does to undo it: drop one `\r` in front of each `\n`. */
  function Decode(t: seq<bv8>): seq<bv8> {
    if t == [] then []
    else if |t| >= 2 && t[0] == 0x0D && t[1] == 0x0A then [0x0A] + Decode(t[2..])
    else [t[0]] + Decode(t[1..])
  }

  function CountLf(s: seq<bv8>): nat {
    |Filter((b: bv8) => b == 0x0A, s)|
  }

  /** No `\n` without a `\r` right before it. */
  predicate WellFormed(t: seq<bv8>) {
    forall i :: 0 <= i < |t| && t[i] == 0x0A ==> i > 0 && t[i - 1] == 0x0D
  }

  /** Nothing is lost, on any bytes whatever: `\r\n` in the input comes back as `\r\n`. */
  lemma {:induction false} DecodeEncode(s: seq<bv8>)
    ensures Decode(Encode(s)) == s
    ensures |Encode(s)| == |s| + CountLf(s)
    ensures WellFormed(Encode(s))
  {
    if s != [] {
      var e := Encode(s[1..]);
      DecodeEncode(s[1..]);
      assert s == [s[0]] + s[1..];
      if s[0] == LF {
        assert Encode(s) == [CR, LF] + e;
        assert Encode(s)[2..] == e;
      } else {
        assert Encode(s) == [s[0]] + e;
        assert Encode(s)[1..] == e;
      }
    }
  }

  lemma {:induction false} WellFormedIsEncoded(t: seq<bv8>)
    requires WellFormed(t)
    ensures Encode(Decode(t)) == t
    decreases |t|
  {
    if t == [] {
    } else if |t| >= 2 && t[0] == CR && t[1] == LF {
      WellFormedIsEncoded(t[2..]);
      assert ([LF] + Decode(t[2..]))[1..] == Decode(t[2..]);
      assert t == [CR, LF] + t[2..];
    } else {
      assert WellFormed(t[1..]);
      WellFormedIsEncoded(t[1..]);
      assert ([t[0]] + Decode(t[1..]))[1..] == Decode(t[1..]);
      assert t == [t[0]] + t[1..];
    }
  }

  /** The encoder reaches exactly the well-formed streams. */
  lemma {:induction false} EncodeDecode(t: seq<bv8>)
    ensures Encode(Decode(t)) == t <==> WellFormed(t)
    decreases |t|
  {
    DecodeEncode(Decode(t));
    if WellFormed(t) {
      WellFormedIsEncoded(t);
    }
  }

  /** One call with a longer string is the same output as two calls. */
  lemma {:induction false} EncodeConcat(s: seq<bv8>, t: seq<bv8>)
    ensures Encode(s + t) == Encode(s) + Encode(t)
  {
    if s == [] {
      assert s + t == t;
    } else {
      assert (s + t)[1..] == s[1..] + t;
      EncodeConcat(s[1..], t);
    }
  }

  lemma {:induction false} EncodeSnoc(s: seq<bv8>, i: nat)
    requires i < |s|
    ensures Encode(s[..i + 1]) == Encode(s[..i]) + EncodeByte(s[i])
  {
    assert s[..i + 1] == s[..i] + [s[i]];
    EncodeConcat(s[..i], [s[i]]);
    assert Encode([s[i]]) == EncodeByte(s[i]);
  }
}
