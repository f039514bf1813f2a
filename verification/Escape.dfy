/**
 The escaping of service arguments: ':' and ',' become percent triplets, '%' itself is never
 escaped. encodeData is in the service socket; decodeData there and decodeParam in
 ControlObject are the same loop.
 */
module Escape {
  import opened Text
  import opened Wrappers

  datatype DecodeError = OutOfRange

  const COLON := "%3A"
  const COMMA := "%2C"

  function EncodeChar(c: char): string {
    if c == ':' then COLON else if c == ',' then COMMA else [c]
  }

  function Encode(s: string): string {
    if s == "" then "" else EncodeChar(s[0]) + Encode(s[1..])
  }

  predicate TripletAt(s: string, i: nat, t: string)
    requires |t| == 3
  {
    i + 2 < |s| && s[i] == t[0] && s[i + 1] == t[1] && s[i + 2] == t[2]
  }

  predicate EscapeAt(s: string, i: nat) {
    TripletAt(s, i, COLON) || TripletAt(s, i, COMMA)
  }

  /** Decoding from the start of s, one triplet or one character at a time. */
  function DecodeText(s: string): string {
    if s == "" then ""
    else if TripletAt(s, 0, COLON) then ":" + DecodeText(s[3..])
    else if TripletAt(s, 0, COMMA) then "," + DecodeText(s[3..])
    else [s[0]] + DecodeText(s[1..])
  }

  /** What the decoder does: on the text "%" alone the unsigned length minus two wraps round,
      the guard lets the second character be read, and std::string::at throws. */
  function Decode(s: string): Result<string, DecodeError> {
    if s == "%" then Failure(OutOfRange) else Success(DecodeText(s))
  }

  /** encodeData. */
  method EncodeData(data: string) returns (res: string)
    ensures res == Encode(data)
  {
    res := "";
    for i := 0 to |data|
      invariant res + Encode(data[i..]) == Encode(data)
    {
      assert data[i..][1..] == data[i + 1..];
      assert res + (EncodeChar(data[i]) + Encode(data[i + 1..])) == res + EncodeChar(data[i]) + Encode(data[i + 1..]);
      if data[i] == ':' {
        res := res + "%3A";
      } else if data[i] == ',' {
        res := res + "%2C";
      } else {
        res := res + [data[i]];
      }
    }
  }

  /** decodeData and decodeParam. The guard i < length - 2 is evaluated on an unsigned length,
      so below length two it is always true. */
  method DecodeData(data: string) returns (r: Result<string, DecodeError>)
    ensures r == Decode(data)
  {
    var res := "";
    var i := 0;
    while i < |data|
      invariant 0 <= i <= |data|
      invariant data == "%" ==> i == 0
      invariant res + DecodeText(data[i..]) == DecodeText(data)
      decreases |data| - i
    {
      var guard := if |data| < 2 then true else i < |data| - 2;
      if guard && data[i] == '%' && i + 1 >= |data| {
        return Failure(OutOfRange);
      }
      DecodeTextStep(res, data, i);
      if guard && data[i] == '%' && data[i + 1] == '3' && data[i + 2] == 'A' {
        res := res + ":";
        i := i + 3;
      } else if guard && data[i] == '%' && data[i + 1] == '2' && data[i + 2] == 'C' {
        res := res + ",";
        i := i + 3;
      } else {
        res := res + [data[i]];
        i := i + 1;
      }
    }
    assert data[i..] == "" && res + DecodeText("") == res;
    return Success(res);
  }

  /** What stands decoded at i, and how many characters it takes. */
  function PieceAt(data: string, i: nat): (string, nat)
    requires i < |data|
  {
    if TripletAt(data, i, COLON) then (":", 3)
    else if TripletAt(data, i, COMMA) then (",", 3)
    else ([data[i]], 1)
  }

  lemma DecodeTextStep(res: string, data: string, i: nat)
    requires i < |data|
    ensures var (piece, n) := PieceAt(data, i);
            i + n <= |data| && res + DecodeText(data[i..]) == (res + piece) + DecodeText(data[i + n..])
  {
    var s := data[i..];
    var (piece, n) := PieceAt(data, i);
    assert i + n <= |data| && s[n..] == data[i + n..];
    assert DecodeText(s) == piece + DecodeText(s[n..]);
    Regroup(res, piece, DecodeText(s[n..]));
  }

  /** The encoder character by character, and the decoder on its triplets. */
  lemma EncodeExact(c: char, s: string)
    ensures Encode([c] + s) == (if c == ':' then "%3A" else if c == ',' then "%2C" else [c]) + Encode(s)
    ensures Encode("") == ""
  {
    assert ([c] + s)[1..] == s;
  }

  lemma DecodeExact(s: string)
    ensures DecodeText("%3A" + s) == ":" + DecodeText(s)
    ensures DecodeText("%2C" + s) == "," + DecodeText(s)
    ensures forall c | c != '%' :: DecodeText([c] + s) == [c] + DecodeText(s)
  {
    forall c | c != '%'
      ensures DecodeText([c] + s) == [c] + DecodeText(s)
    {
      assert ([c] + s)[1..] == s && ([c] + s)[0] == c;
    }
  }

  // ---------- round trip ----------

  /** How many of the two triplets s already holds. */
  function Escapes(s: string): nat {
    if s == "" then 0 else (if EscapeAt(s, 0) then 1 else 0) + Escapes(s[1..])
  }

  predicate Holds(s: string, t: string)
    requires |t| == 3
  {
    exists i: nat | i < |s| :: TripletAt(s, i, t)
  }

  lemma {:induction false} EscapesZero(s: string)
    ensures Escapes(s) == 0 <==> !Holds(s, COLON) && !Holds(s, COMMA)
    decreases |s|
  {
    if s != "" {
      EscapesZero(s[1..]);
      forall i: nat, t | t in {COLON, COMMA} && TripletAt(s, i, t)
        ensures i == 0 || TripletAt(s[1..], i - 1, t)
      {
      }
      forall i: nat, t | t in {COLON, COMMA} && TripletAt(s[1..], i, t)
        ensures TripletAt(s, i + 1, t)
      {
      }
    }
  }

  /** No triplet starts inside another one. */
  lemma EscapesSkip(s: string)
    requires EscapeAt(s, 0)
    ensures Escapes(s) == 1 + Escapes(s[3..])
  {
    assert s[1..][1..] == s[2..] && s[2..][1..] == s[3..];
    assert !EscapeAt(s[1..], 0) && !EscapeAt(s[2..], 0);
    assert Escapes(s[1..]) == Escapes(s[2..]) && Escapes(s[2..]) == Escapes(s[3..]);
  }

  /** Encoding s and decoding the result: its exact length. */
  lemma {:induction false} RoundTripLength(s: string)
    ensures |DecodeText(Encode(s))| == |s| - 2 * Escapes(s)
    decreases |s|
  {
    if s != "" {
      if EscapeAt(s, 0) {
        EscapesSkip(s);
        EncodeEscape(s);
        RoundTripLength(s[3..]);
      } else {
        RoundTripLength(s[1..]);
      }
    }
  }

  lemma EncodeEscape(s: string)
    requires EscapeAt(s, 0)
    ensures Encode(s) == s[..3] + Encode(s[3..])
  {
    assert s[1..][1..] == s[2..] && s[2..][1..] == s[3..];
    assert Encode(s[2..]) == [s[2]] + Encode(s[3..]);
    assert Encode(s[1..]) == [s[1]] + Encode(s[2..]);
    assert Encode(s) == [s[0]] + Encode(s[1..]);
    assert s[..3] == [s[0]] + ([s[1]] + [s[2]]);
  }

  lemma {:induction false} DecodeEncodeClean(s: string)
    requires Escapes(s) == 0
    ensures DecodeText(Encode(s)) == s
    decreases |s|
  {
    if s != "" {
      DecodeEncodeClean(s[1..]);
    }
  }

  /** The exact condition of the round trip, for every text. */
  lemma RoundTrip(s: string)
    ensures Decode(Encode(s)) == Success(s) <==> !Holds(s, COLON) && !Holds(s, COMMA) && s != "%"
  {
    EscapesZero(s);
    RoundTripLength(s);
    if Escapes(s) == 0 {
      DecodeEncodeClean(s);
    }
  }

  /** Encoded text holds no ':' and no ',', and no other character is added or removed by more
      than a triplet: it is free of every character outside the triplets that s is free of. */
  lemma {:induction false} EncodedIsFree(s: string)
    ensures Free(Encode(s), ':') && Free(Encode(s), ',')
    ensures forall c | c !in "%3A2C:," && Free(s, c) :: Free(Encode(s), c)
    decreases |s|
  {
    if s != "" {
      EncodedIsFree(s[1..]);
      forall c | c !in "%3A2C:," && Free(s, c)
        ensures Free(Encode(s), c)
      {
        assert Free(s[1..], c);
        assert s[0] != c;
      }
    }
  }
}
