/** IProtocol::toString and IProtocol::toBytes. */
module HexCodec {
  import opened Text
  import opened Tokenizer
  import opened Conversions

  type Byte = b: int | 0 <= b < 256

  function HexChar(d: int): (c: char)
    requires 0 <= d < 16
    ensures c == "0123456789ABCDEF"[d]
  {
    if d < 10 then '0' + d as char else 'A' + (d - 10) as char
  }

  function HexWord(b: Byte): string {
    [HexChar(b / 16), HexChar(b % 16)]
  }

  function HexWords(bs: seq<Byte>): (r: seq<string>)
    ensures |r| == |bs| && forall i | 0 <= i < |bs| :: r[i] == HexWord(bs[i])
  {
    if bs == [] then [] else [HexWord(bs[0])] + HexWords(bs[1..])
  }

  /** The text form: two hex digits a byte, bytes separated by single spaces. */
  function ToText(bs: seq<Byte>): string {
    Join(HexWords(bs), ' ')
  }

  /** The text of the first bytes, with the separator that follows unless they are all. */
  function Printed(bs: seq<Byte>, i: nat): string
    requires i <= |bs|
  {
    if i == 0 then "" else Printed(bs, i - 1) + HexWord(bs[i - 1]) + (if i < |bs| then " " else "")
  }

  lemma {:induction false} PrintedFrom(bs: seq<Byte>, i: nat)
    requires i <= |bs|
    ensures ToText(bs) == Printed(bs, i) + ToText(bs[i..])
    decreases i
  {
    if i == 0 {
      assert bs[0..] == bs;
    } else {
      PrintedFrom(bs, i - 1);
      assert bs[i - 1..][1..] == bs[i..];
      var a, w, sep, rest := Printed(bs, i - 1), HexWord(bs[i - 1]), if i < |bs| then " " else "", ToText(bs[i..]);
      assert a + (w + sep + rest) == a + w + sep + rest;
    }
  }

  /** What one turn of the loop appends: the two one-character strings of a byte, and a space
      unless it is the last. */
  method Appended(b: Byte, last: bool) returns (text: string)
    ensures text == HexWord(b) + if last then "" else " "
  {
    var d1 := b / 16;
    var d2 := b % 16;
    var s1 := [if d1 < 10 then '0' + d1 as char else 'A' + (d1 - 10) as char];
    var s2 := [if d2 < 10 then '0' + d2 as char else 'A' + (d2 - 10) as char];
    text := s1 + s2;
    if !last {
      text := text + " ";
    }
  }

  /** toString. */
  method ToString(buff: array<Byte>, length: nat) returns (res: string)
    requires length <= buff.Length
    ensures res == ToText(buff[..length])
  {
    res := "";
    ghost var bs := buff[..length];
    if length == 0 {
      return "";
    }
    var i := 0;
    while i < length
      invariant 0 <= i <= length
      invariant res == Printed(bs, i)
    {
      assert buff[i] == bs[i];
      var text := Appended(buff[i], i == length - 1);
      res := res + text;
      i := i + 1;
    }
    PrintedFrom(bs, length);
    assert bs[length..] == [];
  }

  // ---------- a true reader inverts it ----------

  function HexValue(c: char): int {
    if '0' <= c <= '9' then c as int - '0' as int
    else if 'A' <= c <= 'F' then c as int - 'A' as int + 10
    else 0
  }

  function ReadWord(w: string): int {
    if |w| == 2 then 16 * HexValue(w[0]) + HexValue(w[1]) else 0
  }

  function ReadWords(ws: seq<string>): (r: seq<int>)
    ensures |r| == |ws|
  {
    if ws == [] then [] else [ReadWord(ws[0])] + ReadWords(ws[1..])
  }

  lemma HexWordShape(b: Byte)
    ensures HexWord(b) != "" && Free(HexWord(b), ' ') && ReadWord(HexWord(b)) == b
  {
  }

  lemma {:induction false} ReadHexWords(bs: seq<Byte>)
    ensures ReadWords(HexWords(bs)) == bs
  {
    if bs != [] {
      HexWordShape(bs[0]);
      ReadHexWords(bs[1..]);
    }
  }

  lemma TokensOfText(bs: seq<Byte>)
    ensures Tokens(ToText(bs), ' ') == HexWords(bs)
    ensures !AllSpaces(ToText(bs))
  {
    forall i | 0 <= i < |bs|
      ensures HexWords(bs)[i] != "" && Free(HexWords(bs)[i], ' ')
    {
      HexWordShape(bs[i]);
    }
    WordsOfJoin(HexWords(bs));
    if bs != [] {
      FirstCharOfJoin(HexWords(bs));
      HexWordShape(bs[0]);
    }
  }

  lemma FirstCharOfJoin(ws: seq<string>)
    requires ws != [] && ws[0] != ""
    ensures Join(ws, ' ') != "" && Join(ws, ' ')[0] == ws[0][0]
  {
  }

  /** Reading the words as hexadecimal gives the bytes back, so the text form is injective. */
  lemma HexReaderInverts(bs: seq<Byte>, cs: seq<Byte>)
    ensures ReadWords(Tokens(ToText(bs), ' ')) == bs
    ensures ToText(bs) == ToText(cs) ==> bs == cs
  {
    TokensOfText(bs);
    TokensOfText(cs);
    ReadHexWords(bs);
    ReadHexWords(cs);
  }

  // ---------- toBytes does not ----------

  /** The number of tokens that fit. */
  function Fitting(text: string, length: nat): (n: nat)
    ensures n <= length && n <= |Tokens(text, ' ')| && (n == length || n == |Tokens(text, ' ')|)
  {
    if |Tokens(text, ' ')| > length then length else |Tokens(text, ' ')|
  }

  /** An int stored in an unsigned char. */
  function Truncate(v: int): Byte {
    v % 256
  }

  /** toBytes: each token read as a decimal number and truncated, the rest of the room zeroed. */
  method ToBytes(text: string, buffer: array<Byte>, length: nat) returns (num: nat)
    requires length <= buffer.Length && !AllSpaces(text)
    modifies buffer
    ensures num == Fitting(text, length)
    ensures |Tokens(text, ' ')| <= length ==> buffer[..num] == BytesOf(text)
    ensures forall i | 0 <= i < num :: buffer[i] == Truncate(Atoi(Tokens(text, ' ')[i]))
    ensures forall i | num <= i < length :: buffer[i] == 0
    ensures forall i | length <= i < buffer.Length :: buffer[i] == old(buffer[i])
  {
    var k := 0;
    while k < length
      invariant 0 <= k <= length
      invariant forall i | 0 <= i < k :: buffer[i] == 0
      invariant forall i | length <= i < buffer.Length :: buffer[i] == old(buffer[i])
    {
      buffer[k] := 0;
      k := k + 1;
    }
    var charList := Split(text, ' ');
    num := |charList|;
    if num > length {
      num := length;
    }
    var i := 0;
    while i < num
      invariant 0 <= i <= num
      invariant forall j | 0 <= j < i :: buffer[j] == Truncate(Atoi(charList[j]))
      invariant forall j | i <= j < length :: buffer[j] == 0
      invariant forall j | length <= j < buffer.Length :: buffer[j] == old(buffer[j])
    {
      buffer[i] := Truncate(Atoi(charList[i]));
      i := i + 1;
    }
  }

  /** A decimal token is stored as its residue, which is the number itself from 0 to 255. */
  lemma DecimalToken(n: int)
    ensures var b := Truncate(Atoi(Show(n)));
            (exists k: int :: n == 256 * k + b) && (0 <= n < 256 ==> b == n)
  {
    AtoiShow(n);
    assert n == 256 * (n / 256) + Truncate(n);
  }

  /** What toBytes makes of one byte's hex word: the word's leading decimal digits, as decimal. */
  function Misread(b: Byte): int {
    if b / 16 >= 10 then 0
    else if b % 16 >= 10 then b / 16
    else 10 * (b / 16) + b % 16
  }

  lemma AtoiHexWord(b: Byte)
    ensures Truncate(Atoi(HexWord(b))) == Misread(b)
  {
    var w := HexWord(b);
    var h, l := b / 16, b % 16;
    assert SkipSpaces(w) == w;
    if h >= 10 {
      assert DigitRun(w) == 0 && w[..0] == "";
    } else if l >= 10 {
      assert DigitRun(w[1..]) == 0 && DigitRun(w) == 1;
      assert w[..1][..0] == "" && Digits(w[..1]) == h;
    } else {
      assert w[1..][1..] == "" && DigitRun(w[1..]) == 1 && DigitRun(w) == 2;
      assert w[..2] == w && w[..1][..0] == "" && Digits(w[..1]) == h;
    }
  }

  /** The bytes toBytes leaves when there is room for all. */
  function BytesOf(text: string): (r: seq<Byte>) {
    TruncateAll(Tokens(text, ' '))
  }

  function TruncateAll(ws: seq<string>): (r: seq<Byte>)
    ensures |r| == |ws| && forall i | 0 <= i < |ws| :: r[i] == Truncate(Atoi(ws[i]))
  {
    if ws == [] then [] else [Truncate(Atoi(ws[0]))] + TruncateAll(ws[1..])
  }

  /** Although the header calls the text hexadecimal, toBytes returns the bytes that toString
      printed if and only if every one of them is below ten. */
  lemma ToBytesInvertsIff(bs: seq<Byte>)
    ensures |BytesOf(ToText(bs))| == |bs|
    ensures forall i | 0 <= i < |bs| :: BytesOf(ToText(bs))[i] == Misread(bs[i])
    ensures BytesOf(ToText(bs)) == bs <==> forall i | 0 <= i < |bs| :: bs[i] < 10
  {
    TokensOfText(bs);
    forall i | 0 <= i < |bs|
      ensures BytesOf(ToText(bs))[i] == Misread(bs[i])
      ensures Misread(bs[i]) == bs[i] <==> bs[i] < 10
    {
      AtoiHexWord(bs[i]);
    }
  }
}
