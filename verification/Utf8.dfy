/** UTF-8 as the output poller uses it: str.encode("utf-8"), and bytes.decode("utf-8", errors="replace"), which puts
    one U+FFFD for each maximal ill-formed part (section 3.9 of the Unicode Standard). */
module Utf8 {
  import opened Prelude

  type Scalar = c: int | 0 <= c < 0xD800 || 0xE000 <= c < 0x110000

  const REPLACEMENT: Scalar := 0xFFFD

  function EncodeOne(c: Scalar): (r: seq<Byte>)
    ensures 1 <= |r| <= 4
  {
    if c < 0x80 then [c]
    else if c < 0x800 then [0xC0 + c / 64, 0x80 + c % 64]
    else if c < 0x10000 then [0xE0 + c / 64 / 64, 0x80 + c / 64 % 64, 0x80 + c % 64]
    else [0xF0 + c / 64 / 64 / 64, 0x80 + c / 64 / 64 % 64, 0x80 + c / 64 % 64, 0x80 + c % 64]
  }

  function Encode(s: seq<Scalar>): seq<Byte> {
    if s == [] then [] else EncodeOne(s[0]) + Encode(s[1..])
  }

  predicate Continuation(b: Byte) { 0x80 <= b < 0xC0 }

  /** The bytes that may follow a lead byte (section 4 of RFC 3629). */
  predicate SecondOk(lead: Byte, b: Byte) {
    if lead == 0xE0 then 0xA0 <= b < 0xC0
    else if lead == 0xED then 0x80 <= b < 0xA0
    else if lead == 0xF0 then 0x90 <= b < 0xC0
    else if lead == 0xF4 then 0x80 <= b < 0x90
    else Continuation(b)
  }

  /** One decoded character, whether it was well formed, and the bytes it took. */
  datatype Step = Step(ok: bool, c: Scalar, taken: nat)

  function Bad(taken: nat): Step { Step(false, REPLACEMENT, taken) }

  /** The payload of the lead byte, extended by those of the continuation bytes. */
  function Payload(high: int, b: Byte): int { high * 64 + (b - 0x80) }

  function DecodeOne(b: seq<Byte>): (r: Step)
    requires b != []
    ensures 1 <= r.taken <= |b|
    ensures !r.ok ==> r.c == REPLACEMENT
  {
    var lead: int := b[0];
    if lead < 0x80 then Step(true, lead, 1)
    else if lead < 0xC2 || lead >= 0xF5 || |b| < 2 || !SecondOk(lead, b[1]) then Bad(1)
    else if lead < 0xE0 then Step(true, Payload(lead - 0xC0, b[1]), 2)
    else if |b| < 3 || !Continuation(b[2]) then Bad(2)
    else if lead < 0xF0 then Step(true, Payload(Payload(lead - 0xE0, b[1]), b[2]), 3)
    else if |b| < 4 || !Continuation(b[3]) then Bad(3)
    else Step(true, Payload(Payload(Payload(lead - 0xF0, b[1]), b[2]), b[3]), 4)
  }

  function Decode(b: seq<Byte>): seq<Scalar> {
    if b == [] then []
    else
      var step := DecodeOne(b);
      [step.c] + Decode(b[step.taken..])
  }

  predicate WellFormed(b: seq<Byte>) {
    b == [] || (DecodeOne(b).ok && WellFormed(b[DecodeOne(b).taken..]))
  }

  lemma PayloadParts(high: int, b: Byte)
    requires Continuation(b)
    ensures Payload(high, b) / 64 == high && 0x80 + Payload(high, b) % 64 == b
  {
  }

  lemma StepOfEncoded(c: Scalar, rest: seq<Byte>)
    ensures DecodeOne(EncodeOne(c) + rest) == Step(true, c, |EncodeOne(c)|)
  {
    var b := EncodeOne(c) + rest;
    assert b[..|EncodeOne(c)|] == EncodeOne(c);
    if c < 0x80 {
    } else if c < 0x800 {
      assert b[0] == 0xC0 + c / 64 && b[1] == 0x80 + c % 64;
    } else if c < 0x10000 {
      assert b[0] == 0xE0 + c / 64 / 64 && b[1] == 0x80 + c / 64 % 64 && b[2] == 0x80 + c % 64;
    } else {
      assert b[0] == 0xF0 + c / 64 / 64 / 64 && b[1] == 0x80 + c / 64 / 64 % 64;
      assert b[2] == 0x80 + c / 64 % 64 && b[3] == 0x80 + c % 64;
    }
  }

  lemma EncodedOfStep(b: seq<Byte>)
    requires b != [] && DecodeOne(b).ok
    ensures EncodeOne(DecodeOne(b).c) == b[..DecodeOne(b).taken]
  {
    var lead: int := b[0];
    if lead < 0x80 {
    } else if lead < 0xE0 {
      PayloadParts(lead - 0xC0, b[1]);
    } else if lead < 0xF0 {
      PayloadParts(lead - 0xE0, b[1]);
      PayloadParts(Payload(lead - 0xE0, b[1]), b[2]);
    } else {
      PayloadParts(lead - 0xF0, b[1]);
      PayloadParts(Payload(lead - 0xF0, b[1]), b[2]);
      PayloadParts(Payload(Payload(lead - 0xF0, b[1]), b[2]), b[3]);
    }
  }

  lemma {:induction false} EncodedIsWellFormed(s: seq<Scalar>)
    ensures WellFormed(Encode(s)) && Decode(Encode(s)) == s
  {
    if s != [] {
      EncodedIsWellFormed(s[1..]);
      StepOfEncoded(s[0], Encode(s[1..]));
      assert Encode(s)[|EncodeOne(s[0])|..] == Encode(s[1..]);
    }
  }

  lemma DecodeCons(b: seq<Byte>)
    requires b != []
    ensures var step := DecodeOne(b);
      Decode(b) == [step.c] + Decode(b[step.taken..]) && b == b[..step.taken] + b[step.taken..]
  {
  }

  lemma EncodeCons(c: Scalar, s: seq<Scalar>)
    ensures Encode([c] + s) == EncodeOne(c) + Encode(s)
  {
    assert ([c] + s)[1..] == s;
  }

  lemma {:induction false} WellFormedRoundTrip(b: seq<Byte>)
    requires WellFormed(b)
    ensures Encode(Decode(b)) == b
  {
    if b != [] {
      var c, taken := DecodeOne(b).c, DecodeOne(b).taken;
      var rest := b[taken..];
      WellFormedRoundTrip(rest);
      EncodedOfStep(b);
      DecodeCons(b);
      EncodeCons(c, Decode(rest));
    }
  }

  /** Decoding with replacement can be undone exactly on well-formed input. */
  lemma DecodeFaithful(b: seq<Byte>)
    ensures Encode(Decode(b)) == b <==> WellFormed(b)
  {
    EncodedIsWellFormed(Decode(b));
    if WellFormed(b) {
      WellFormedRoundTrip(b);
    }
  }

  lemma {:induction false} EncodeAppend(s: seq<Scalar>, t: seq<Scalar>)
    ensures Encode(s + t) == Encode(s) + Encode(t)
  {
    if s == [] {
      assert s + t == t;
    } else {
      assert (s + t)[1..] == s[1..] + t;
      EncodeAppend(s[1..], t);
    }
  }

  /** These bytes begin the encoding of some character. */
  ghost predicate Begins(b: seq<Byte>) { exists c: Scalar :: b <= EncodeOne(c) }

  lemma BeginsTwo(lead: Byte, b: Byte)
    requires 0xE0 <= lead < 0xF5 && SecondOk(lead, b)
    ensures Begins([lead, b])
  {
    if lead < 0xF0 {
      var c: Scalar := Payload(Payload(lead - 0xE0, b), 0x80);
      PayloadParts(lead - 0xE0, b);
      assert EncodeOne(c) == [lead, b, 0x80];
    } else {
      BeginsThree(lead, b, 0x80);
      var c: Scalar :| [lead, b, 0x80] <= EncodeOne(c);
      assert [lead, b] <= EncodeOne(c);
    }
  }

  lemma BeginsThree(lead: Byte, b: Byte, b': Byte)
    requires 0xF0 <= lead < 0xF5 && SecondOk(lead, b) && Continuation(b')
    ensures Begins([lead, b, b'])
  {
    var c: Scalar := Payload(Payload(Payload(lead - 0xF0, b), b'), 0x80);
    PayloadParts(lead - 0xF0, b);
    PayloadParts(Payload(lead - 0xF0, b), b');
    assert EncodeOne(c) == [lead, b, b', 0x80];
  }

  lemma SameFront(b: seq<Byte>, e: seq<Byte>, n: nat)
    requires n <= |b|
    ensures b[..n] <= e ==> n <= |e| && forall i :: 0 <= i < n ==> b[i] == e[i]
  {
    if b[..n] <= e {
      assert forall i :: 0 <= i < n ==> b[..n][i] == e[i];
    }
  }

  /** One replacement stands for a maximal part: a single byte, or as many as can begin a character. */
  lemma ReplacedIsMaximal(b: seq<Byte>)
    requires b != [] && !DecodeOne(b).ok
    ensures var n := DecodeOne(b).taken;
      && (n == 1 || Begins(b[..n]))
      && (n < |b| ==> !Begins(b[..n + 1]))
  {
    var n := DecodeOne(b).taken;
    if n == 2 {
      BeginsTwo(b[0], b[1]);
      assert b[..2] == [b[0], b[1]];
    } else if n == 3 {
      BeginsThree(b[0], b[1], b[2]);
      assert b[..3] == [b[0], b[1], b[2]];
    }
    if n < |b| {
      forall c: Scalar ensures !(b[..n + 1] <= EncodeOne(c)) {
        StepOfEncoded(c, []);
        assert EncodeOne(c) + [] == EncodeOne(c);
        SameFront(b, EncodeOne(c), n + 1);
      }
    }
  }

  lemma DecodeEmpty(b: seq<Byte>)
    ensures Decode(b) == [] <==> b == []
  {
  }
}
