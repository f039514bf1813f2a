/**
 The buffer of the receive loops: a fixed array of 4096 characters, the text carried over from
 the last receive at its start. The service socket updates the carry inside its message loop,
 the debugger socket after it.
 */
module ReceiveLoop {
  import opened Text
  import opened Tokenizer

  const SIZE: nat := 4096

  /** sizeof(buff) - 1. */
  const CAPACITY: nat := 4095

  datatype Loop = ServiceLoop | DebuggerLoop

  /** Between two receives: the buffer, the carried text, the messages handled so far. */
  datatype Recv = Recv(buffer: seq<char>, carry: string, handled: seq<string>)

  function Zeros(n: nat): (r: seq<char>)
    ensures |r| == n && forall i | 0 <= i < n :: r[i] == '\0'
  {
    seq(n, i => '\0')
  }

  /** The buffer after memset and memcpy of a text. */
  function Padded(s: string): (r: seq<char>)
    requires |s| <= SIZE
    ensures |r| == SIZE
  {
    s + Zeros(SIZE - |s|)
  }

  function Overlay(buffer: seq<char>, at: nat, chunk: string): (r: seq<char>)
    requires at + |chunk| <= |buffer|
    ensures |r| == |buffer|
  {
    buffer[..at] + chunk + buffer[at + |chunk|..]
  }

  /** std::string(buff): everything before the first NUL. */
  function CString(buffer: seq<char>): (r: string)
    ensures |r| <= |buffer| && r == buffer[..|r|] && Free(r, '\0')
    ensures |r| < |buffer| ==> buffer[|r|] == '\0'
  {
    if buffer == [] || buffer[0] == '\0' then "" else [buffer[0]] + CString(buffer[1..])
  }

  /** What the loop sees after a chunk came in. */
  function Data(st: Recv, chunk: string): string
    requires |st.buffer| == SIZE && |st.carry| + |chunk| <= CAPACITY
  {
    CString(Overlay(st.buffer, |st.carry|, chunk))
  }

  /** The carry after n turns of the service socket's message loop: each turn compares the
      received length with the room the current carry would leave. */
  function CarryAfter(n: nat, len: nat, carry: string, tail: string): (r: string)
    ensures r in {carry, tail, ""}
  {
    if n == 0 then carry
    else
      var c := CarryAfter(n - 1, len, carry, tail);
      if len == CAPACITY - |c| then tail else ""
  }

  predicate Shaped(st: Recv) {
    |st.buffer| == SIZE && |st.carry| <= CAPACITY && st.buffer[CAPACITY] == '\0'
  }

  lemma {:induction false} CStringBefore(buffer: seq<char>, k: nat)
    requires k < |buffer| && buffer[k] == '\0'
    ensures |CString(buffer)| <= k
  {
    if k > 0 && buffer[0] != '\0' {
      CStringBefore(buffer[1..], k - 1);
    }
  }

  /** How many messages the loop handles. */
  function MessageCount(full: bool, datas: seq<string>): nat {
    if !full then |datas| else if datas == [] then 0 else |datas| - 1
  }

  predicate Short(datas: seq<string>) {
    forall k | 0 <= k < |datas| :: |datas[k]| <= CAPACITY
  }

  /** The service socket after d turns of its message loop. */
  function Turned(st: Recv, buffer: seq<char>, datas: seq<string>, len: nat, d: nat): Recv
    requires len + |st.carry| <= CAPACITY && d <= |datas| && Short(datas)
  {
    if d == 0 then Recv(buffer, st.carry, st.handled)
    else
      var carry := CarryAfter(d, len, st.carry, Last(datas));
      Recv(Padded(carry), carry, st.handled + datas[..d])
  }

  /** What a loop makes of the tokens of its data, len characters of which were just received. */
  function Handled(loop: Loop, st: Recv, buffer: seq<char>, datas: seq<string>, len: nat): Recv
    requires len + |st.carry| <= CAPACITY && Short(datas)
  {
    var full := len == CAPACITY - |st.carry|;
    var d := MessageCount(full, datas);
    match loop
    case ServiceLoop => Turned(st, buffer, datas, len, d)
    case DebuggerLoop =>
      var carry := if full && datas != [] then Last(datas) else "";
      Recv(Padded(carry), carry, st.handled + datas[..d])
  }

  /** The tokens of what the buffer holds after a chunk came in. */
  function DataTokens(st: Recv, chunk: string): (datas: seq<string>)
    requires Shaped(st) && |st.carry| + |chunk| <= CAPACITY
    ensures Short(datas) && forall k | 0 <= k < |datas| :: !AllSpaces(datas[k])
  {
    TokensOfShapedData(st, chunk);
    ConverterTokens(Data(st, chunk), ';')
  }

  lemma TokensOfShapedData(st: Recv, chunk: string)
    requires Shaped(st) && |st.carry| + |chunk| <= CAPACITY
    ensures var datas := ConverterTokens(Data(st, chunk), ';');
            Short(datas) && forall k | 0 <= k < |datas| :: !AllSpaces(datas[k])
  {
    var buffer := Overlay(st.buffer, |st.carry|, chunk);
    assert buffer[CAPACITY] == '\0';
    CStringBefore(buffer, CAPACITY);
    if Data(st, chunk) != "" {
      TokensShort(Data(st, chunk));
    }
  }

  /** One receive. */
  function Received(loop: Loop, st: Recv, chunk: string): (t: Recv)
    requires Shaped(st) && |st.carry| + |chunk| <= CAPACITY
    ensures Shaped(t)
  {
    Handled(loop, st, Overlay(st.buffer, |st.carry|, chunk), DataTokens(st, chunk), |chunk|)
  }

  // ---------- the exact condition of the carry-over ----------

  /** When a receive fills the buffer and yields d complete messages and an incomplete tail, the
      service socket keeps the tail exactly if there was one message, or the tail is as long as
      the previous carry, or there was no carry and the number of messages is odd. Otherwise it
      carries nothing. */
  lemma {:induction false} CarryKeptIff(d: nat, carry: string, tail: string)
    requires d >= 1 && tail != "" && |carry| <= CAPACITY && |tail| <= CAPACITY
    ensures var c := CarryAfter(d, CAPACITY - |carry|, carry, tail);
            && (c == tail <==> d == 1 || |tail| == |carry| || (carry == "" && d % 2 == 1))
            && (c == tail || c == "")
    decreases d
  {
    if d > 1 {
      CarryKeptIff(d - 1, carry, tail);
    }
  }

  /** A receive that does not fill the buffer always leaves no carry. */
  lemma {:induction false} NotFullNoCarry(d: nat, len: nat, carry: string, tail: string)
    requires d >= 1 && len + |carry| < CAPACITY
    ensures CarryAfter(d, len, carry, tail) == ""
    decreases d
  {
    if d > 1 {
      NotFullNoCarry(d - 1, len, carry, tail);
    }
  }

  /** A receive that fills the buffer, with at least one complete message and a tail: the
      service socket keeps the tail under that condition and otherwise drops it altogether; the
      debugger socket, which updates its carry after the message loop, always keeps it. */
  lemma CarryOverExact(loop: Loop, st: Recv, buffer: seq<char>, datas: seq<string>, len: nat)
    requires len + |st.carry| == CAPACITY && |datas| >= 2 && Last(datas) != "" && Short(datas)
    ensures var t := Handled(loop, st, buffer, datas, len);
            var d := |datas| - 1;
            && t.handled == st.handled + Front(datas)
            && (t.carry == Last(datas) <==>
                  loop == DebuggerLoop || d == 1 || |Last(datas)| == |st.carry| || (st.carry == "" && d % 2 == 1))
            && (t.carry != Last(datas) ==> t.carry == "")
            && Tidy(t)
  {
    CarryKeptIff(|datas| - 1, st.carry, Last(datas));
  }

  // ---------- reassembly ----------

  /** Nothing but the carry in the buffer. */
  predicate Tidy(st: Recv) {
    |st.carry| <= CAPACITY && st.buffer == Padded(st.carry)
  }

  lemma {:induction false} CStringOfPadded(s: string, n: nat)
    requires Free(s, '\0')
    ensures CString(s + Zeros(n)) == s
    decreases |s|
  {
    if s == "" {
      assert s + Zeros(n) == Zeros(n);
    } else {
      CStringOfPadded(s[1..], n);
      assert (s + Zeros(n))[1..] == s[1..] + Zeros(n);
    }
  }

  lemma TidyData(st: Recv, chunk: string)
    requires Tidy(st) && |st.carry| + |chunk| <= CAPACITY && Free(st.carry, '\0') && Free(chunk, '\0')
    ensures Data(st, chunk) == st.carry + chunk
  {
    var rest := SIZE - |st.carry|;
    assert st.buffer[|st.carry| + |chunk|..] == Zeros(rest)[|chunk|..];
    assert Overlay(st.buffer, |st.carry|, chunk) == (st.carry + chunk) + Zeros(rest - |chunk|);
    CStringOfPadded(st.carry + chunk, rest - |chunk|);
  }

  /** Text as it stands on the wire between two receives: messages that are not empty and do
      not start with a space, each closed by a semicolon, then the start of one more. */
  predicate Pieces(ps: seq<string>) {
    && ps != []
    && (forall i | 0 <= i < |ps| :: Free(ps[i], ';') && (ps[i] != "" ==> ps[i][0] != ' '))
    && (forall i | 0 <= i < |ps| - 1 :: ps[i] != "")
  }

  /** A receive that fills the buffer stops inside a message and not behind a space; any other
      stops right behind a semicolon. */
  predicate FairChunk(carry: string, chunk: string) {
    chunk != "" && |carry| + |chunk| <= CAPACITY && FairEnd(|chunk| == CAPACITY - |carry|, chunk[|chunk| - 1])
  }

  predicate FairEnd(full: bool, last: char) {
    if full then last != ';' && last != ' ' else last == ';'
  }

  /** ... and, for the service socket, is one whose tail its loop keeps. */
  predicate KeptChunk(loop: Loop, carry: string, chunk: string) {
    loop == ServiceLoop && |chunk| == CAPACITY - |carry| ==> KeepsTail(Cut(carry + chunk, ';'), carry)
  }

  predicate KeepsTail(ps: seq<string>, carry: string)
    requires ps != []
  {
    var d := |ps| - 1;
    d >= 1 && (d == 1 || |Last(ps)| == |carry| || (carry == "" && d % 2 == 1))
  }

  lemma LastPiece(text: string)
    requires text != ""
    ensures var last := Last(Cut(text, ';'));
            if text[|text| - 1] == ';' then last == "" && |Cut(text, ';')| >= 2
            else last != "" && last[|last| - 1] == text[|text| - 1]
  {
    var front, c := text[..|text| - 1], text[|text| - 1];
    assert text == front + [c];
    CutAppend(front, [c], ';');
    var q := Last(Cut(front, ';'));
    CutFree(front, ';');
    if c == ';' {
      CutFirst(q, ';', "");
      assert q + [c] == q + [';'] + "";
      assert Cut(text, ';') == Front(Cut(front, ';')) + [q, ""];
    } else {
      CutNone(q + [c], ';');
      assert Cut(text, ';') == Front(Cut(front, ';')) + [q + [c]];
    }
  }

  lemma HandledFull(loop: Loop, st: Recv, buffer: seq<char>, ps: seq<string>, len: nat)
    requires len + |st.carry| == CAPACITY && ps != [] && Last(ps) != "" && Short(ps)
    requires loop == ServiceLoop ==> KeepsTail(ps, st.carry)
    ensures Handled(loop, st, buffer, ps, len) == Recv(Padded(Last(ps)), Last(ps), st.handled + Front(ps))
  {
    if loop == ServiceLoop {
      CarryKeptIff(|ps| - 1, st.carry, Last(ps));
    }
  }

  lemma HandledPart(loop: Loop, st: Recv, buffer: seq<char>, datas: seq<string>, len: nat)
    requires len + |st.carry| < CAPACITY && datas != [] && Short(datas)
    ensures Handled(loop, st, buffer, datas, len) == Recv(Padded(""), "", st.handled + datas)
  {
    assert datas[..|datas|] == datas;
    if loop == ServiceLoop {
      NotFullNoCarry(|datas|, len, st.carry, Last(datas));
    }
  }

  lemma TidyIsShaped(st: Recv)
    requires Tidy(st)
    ensures Shaped(st)
  {
    assert Padded(st.carry)[CAPACITY] == Zeros(SIZE - |st.carry|)[CAPACITY - |st.carry|];
  }

  /** One fair receive: the complete messages are handled in order and what is left is carried. */
  lemma FairReceive(loop: Loop, st: Recv, chunk: string)
    requires Tidy(st) && Shaped(st) && FairChunk(st.carry, chunk) && KeptChunk(loop, st.carry, chunk)
    requires Pieces(Cut(st.carry + chunk, ';')) && Free(st.carry, '\0') && Free(chunk, '\0')
    ensures |Last(Cut(st.carry + chunk, ';'))| <= CAPACITY
    ensures var ps := Cut(st.carry + chunk, ';');
            Received(loop, st, chunk) == Recv(Padded(Last(ps)), Last(ps), st.handled + Front(ps))
  {
    var text, buffer, datas := st.carry + chunk, Overlay(st.buffer, |st.carry|, chunk), DataTokens(st, chunk);
    assert Received(loop, st, chunk) == Handled(loop, st, buffer, datas, |chunk|);
    FreeJoined(st.carry, chunk);
    SeenSplit(st, chunk, text, Cut(text, ';'), datas);
    PieceLength(text, |Cut(text, ';')| - 1);
    SplitHandled(loop, st, |chunk|, buffer, datas, Cut(text, ';'), chunk[|chunk| - 1], Trim(Last(Cut(text, ';'))));
  }

  lemma SplitHandled(loop: Loop, st: Recv, len: nat, buffer: seq<char>, datas: seq<string>, ps: seq<string>,
                     last: char, tail: string)
    requires |st.carry| + len <= CAPACITY && Short(datas) && ps != [] && |Last(ps)| <= CAPACITY
    requires SplitOf(ps, datas, last, tail) && FairEnd(len == CAPACITY - |st.carry|, last)
    requires loop == ServiceLoop && len == CAPACITY - |st.carry| ==> KeepsTail(ps, st.carry)
    ensures Handled(loop, st, buffer, datas, len) == Recv(Padded(Last(ps)), Last(ps), st.handled + Front(ps))
  {
    FairHandled(loop, st, len, buffer, datas, ps);
  }

  lemma FairHandled(loop: Loop, st: Recv, len: nat, buffer: seq<char>, datas: seq<string>, ps: seq<string>)
    requires |st.carry| + len <= CAPACITY && Short(datas) && ps != [] && |Last(ps)| <= CAPACITY
    requires if len == CAPACITY - |st.carry|
             then datas == ps && Last(ps) != "" && (loop == ServiceLoop ==> KeepsTail(ps, st.carry))
             else datas == Front(ps) && Last(ps) == "" && |ps| >= 2
    ensures Handled(loop, st, buffer, datas, len) == Recv(Padded(Last(ps)), Last(ps), st.handled + Front(ps))
  {
    if len == CAPACITY - |st.carry| {
      HandledFull(loop, st, buffer, ps, len);
    } else {
      HandledPart(loop, st, buffer, datas, len);
    }
  }

  lemma {:induction false} PieceLength(text: string, i: nat)
    requires i < |Cut(text, ';')|
    ensures |Cut(text, ';')[i]| <= |text|
    decreases |text|
  {
    if text != "" {
      if text[0] == ';' {
        if i > 0 {
          PieceLength(text[1..], i - 1);
        }
      } else {
        PieceLength(text[1..], i);
      }
    }
  }

  function Joined(chunks: seq<string>): string {
    if chunks == [] then "" else Joined(chunks[..|chunks| - 1]) + chunks[|chunks| - 1]
  }

  lemma JoinedMore(chunks: seq<string>, i: nat)
    requires i < |chunks|
    ensures Joined(chunks[..i + 1]) == Joined(chunks[..i]) + chunks[i]
  {
    assert chunks[..i + 1][..i] == chunks[..i];
  }

  /** Every chunk is fair for the carry that the text before it leaves. */
  predicate FairChunks(loop: Loop, chunks: seq<string>) {
    forall i | 0 <= i < |chunks| :: FairAt(loop, chunks, i)
  }

  predicate FairAt(loop: Loop, chunks: seq<string>, i: nat)
    requires i < |chunks|
  {
    var carry := Last(Cut(Joined(chunks[..i]), ';'));
    FairChunk(carry, chunks[i]) && KeptChunk(loop, carry, chunks[i])
  }

  /** The loop over a whole run of receives, none longer than the room left. */
  function ReceivedAll(loop: Loop, st: Recv, chunks: seq<string>): (t: Recv)
    requires Shaped(st)
    ensures Shaped(t)
    decreases |chunks|
  {
    if chunks == [] then st
    else
      var s := ReceivedAll(loop, st, chunks[..|chunks| - 1]);
      var chunk := chunks[|chunks| - 1];
      if |s.carry| + |chunk| <= CAPACITY then Received(loop, s, chunk) else s
  }

  const EMPTY := Recv(Padded(""), "", [])

  /** The state that reassembly should have reached when this text has come in. */
  predicate Reached(t: Recv, text: string) {
    var ps := Cut(text, ';');
    |Last(ps)| <= CAPACITY && t == Recv(Padded(Last(ps)), Last(ps), Front(ps))
  }

  lemma {:induction false} ReachedMore(loop: Loop, t: Recv, a: string, chunk: string)
    requires Reached(t, a) && Pieces(Cut(a + chunk, ';')) && Free(a + chunk, '\0')
    requires FairChunk(t.carry, chunk) && KeptChunk(loop, t.carry, chunk)
    ensures Shaped(t) && Reached(Received(loop, t, chunk), a + chunk)
  {
    TidyIsShaped(t);
    CutAppend(a, chunk, ';');
    CutFree(a, ';');
    PiecesParts(Cut(a, ';'), chunk);
    FreeParts(a, chunk);
    FairReceive(loop, t, chunk);
    FrontOfBoth(Front(Cut(a, ';')), Cut(Last(Cut(a, ';')) + chunk, ';'));
  }

  lemma FrontOfBoth(a: seq<string>, b: seq<string>)
    requires b != []
    ensures Front(a + b) == a + Front(b) && Last(a + b) == Last(b)
  {
  }

  /** Reassembly over a whole run: however the stream was cut into fair chunks, the messages
      handled are exactly the complete messages of the text received so far, in order, and the
      carry is the rest. */
  lemma {:induction false} Reassembled(loop: Loop, chunks: seq<string>)
    requires FairChunks(loop, chunks) && Pieces(Cut(Joined(chunks), ';')) && Free(Joined(chunks), '\0')
    ensures Shaped(EMPTY) && Reached(ReceivedAll(loop, EMPTY, chunks), Joined(chunks))
    decreases |chunks|
  {
    TidyIsShaped(EMPTY);
    if chunks != [] {
      var front, chunk := chunks[..|chunks| - 1], chunks[|chunks| - 1];
      var a := Joined(front);
      CutAppend(a, chunk, ';');
      CutFree(a, ';');
      PiecesParts(Cut(a, ';'), chunk);
      FreeParts(a, chunk);
      FairFront(loop, chunks);
      Reassembled(loop, front);
      assert FairAt(loop, chunks, |chunks| - 1);
      ReachedMore(loop, ReceivedAll(loop, EMPTY, front), a, chunk);
    }
  }

  // ---------- exactly the fair receives ----------

  /** How a text in pieces is split: `last` is its last character, `tail` what the tokenizer leaves
      of an incomplete message. */
  predicate SplitOf(ps: seq<string>, datas: seq<string>, last: char, tail: string)
    requires ps != []
  {
    if last == ';' then |ps| >= 2 && Last(ps) == "" && datas == Front(ps)
    else Last(ps) != "" && datas == Front(ps) + [tail] && tail != "" && (tail == Last(ps) <==> last != ' ')
  }

  lemma {:induction false} PiecesTokens(text: string, ps: seq<string>, datas: seq<string>)
    requires text != "" && ps == Cut(text, ';') && Pieces(ps) && datas == ConverterTokens(text, ';')
    ensures SplitOf(ps, datas, text[|text| - 1], Trim(Last(ps)))
  {
    LastPiece(text);
    PolishedPieces(ps);
    DroppedIs(Front(ps), Trim(Last(ps)), ';');
    TrimmedTail(Last(ps));
    LastComplete(ps);
  }

  lemma LastComplete(ps: seq<string>)
    requires Pieces(ps)
    ensures |ps| >= 2 ==> Last(Front(ps)) != ""
  {
  }

  lemma TrimmedTail(x: string)
    requires x != "" ==> x[0] != ' '
    ensures Trim(x) == "" <==> x == ""
    ensures x != "" ==> (Trim(x) == x <==> x[|x| - 1] != ' ')
  {
    TrimOuter(x);
    if x != "" && x[|x| - 1] != ' ' {
      TrimIsIdentity(x);
    }
  }

  lemma {:induction false} PolishedPieces(ps: seq<string>)
    requires ps != [] && forall i | 0 <= i < |ps| :: ps[i] != "" ==> ps[i][0] != ' '
    ensures Polish(ps) == Front(ps) + [Trim(Last(ps))]
    decreases |ps|
  {
    if |ps| > 1 {
      PolishedPieces(ps[1..]);
      assert Front(ps) == [ps[0]] + Front(ps[1..]);
    }
  }

  /** A receive whose complete messages are handled and whose rest is carried. */
  predicate Whole(st: Recv, t: Recv, ps: seq<string>)
    requires ps != []
  {
    t.carry == Last(ps) && t.handled == st.handled + Front(ps)
  }

  /** A receive that fills the buffer right behind a semicolon: the last complete message is held
      back. */
  lemma HeldBack(loop: Loop, st: Recv, buffer: seq<char>, datas: seq<string>, len: nat)
    requires len + |st.carry| == CAPACITY && Short(datas) && datas != []
    ensures var t := Handled(loop, st, buffer, datas, len);
            && t.handled == st.handled + Front(datas)
            && (loop == DebuggerLoop ==> t.carry == Last(datas) && t.buffer == Padded(t.carry))
  {
    assert datas[..|datas| - 1] == Front(datas);
    assert |datas| == 1 ==> st.handled + Front(datas) == st.handled;
  }

  /** A receive that fills the buffer inside a message. */
  lemma FullIsWholeIff(loop: Loop, st: Recv, buffer: seq<char>, ps: seq<string>, tail: string, len: nat)
    requires len + |st.carry| == CAPACITY && ps != [] && Last(ps) != "" && tail != ""
    requires Short(Front(ps) + [tail]) && (|ps| == 1 ==> st.carry != Last(ps))
    ensures Whole(st, Handled(loop, st, buffer, Front(ps) + [tail], len), ps) <==>
            tail == Last(ps) && (loop == ServiceLoop ==> KeepsTail(ps, st.carry))
  {
    var datas := Front(ps) + [tail];
    var d := |ps| - 1;
    HeldBack(loop, st, buffer, datas, len);
    assert Front(datas) == Front(ps) && Last(datas) == tail;
    if loop == ServiceLoop && d >= 1 {
      CarryKeptIff(d, st.carry, tail);
    }
  }

  /** All cases together, in terms of the tokens. */
  lemma HandledIsWholeIff(loop: Loop, st: Recv, buffer: seq<char>, ps: seq<string>, datas: seq<string>, len: nat,
                          last: char, tail: string)
    requires len + |st.carry| <= CAPACITY && Short(datas) && ps != [] && (|ps| == 1 ==> st.carry != Last(ps))
    requires SplitOf(ps, datas, last, tail)
    ensures var full := len == CAPACITY - |st.carry|;
            Whole(st, Handled(loop, st, buffer, datas, len), ps) <==>
            && FairEnd(full, last)
            && (loop == ServiceLoop && full ==> KeepsTail(ps, st.carry))
  {
    if len + |st.carry| < CAPACITY {
      if last == ';' {
        HandledPart(loop, st, buffer, datas, len);
      }
    } else if last == ';' {
      HeldBack(loop, st, buffer, datas, len);
    } else {
      FullIsWholeIff(loop, st, buffer, ps, tail, len);
    }
  }

  /** What the loop splits on a tidy buffer. */
  lemma SeenTokens(st: Recv, chunk: string)
    requires Tidy(st) && Shaped(st) && |st.carry| + |chunk| <= CAPACITY && Free(st.carry + chunk, '\0')
    ensures DataTokens(st, chunk) == ConverterTokens(st.carry + chunk, ';')
  {
    FreeParts(st.carry, chunk);
    TidyData(st, chunk);
  }

  lemma SeenSplit(st: Recv, chunk: string, text: string, ps: seq<string>, datas: seq<string>)
    requires Tidy(st) && Shaped(st) && |st.carry| + |chunk| <= CAPACITY && Free(text, '\0')
    requires chunk != "" && text == st.carry + chunk
    requires ps == Cut(text, ';') && Pieces(ps) && datas == DataTokens(st, chunk)
    ensures SplitOf(ps, datas, chunk[|chunk| - 1], Trim(Last(ps)))
  {
    SeenTokens(st, chunk);
    PiecesTokens(text, ps, datas);
  }

  /** The exact condition, for both loops and any receive that fits: its complete messages are
      handled and its rest is carried if and only if it is fair and, for the service socket, one
      whose tail the loop keeps. */
  lemma {:induction false} WholeIffFair(loop: Loop, st: Recv, chunk: string)
    requires Tidy(st) && Shaped(st) && chunk != "" && |st.carry| + |chunk| <= CAPACITY
    requires Pieces(Cut(st.carry + chunk, ';')) && Free(st.carry + chunk, '\0')
    ensures Whole(st, Received(loop, st, chunk), Cut(st.carry + chunk, ';')) <==>
            FairChunk(st.carry, chunk) && KeptChunk(loop, st.carry, chunk)
  {
    var ps, datas, buffer := Cut(st.carry + chunk, ';'), DataTokens(st, chunk), Overlay(st.buffer, |st.carry|, chunk);
    SeenSplit(st, chunk, st.carry + chunk, ps, datas);
    OnePiece(st.carry, chunk);
    HandledIsWholeIff(loop, st, buffer, ps, datas, |chunk|, chunk[|chunk| - 1], Trim(Last(ps)));
  }

  lemma OnePiece(carry: string, chunk: string)
    requires chunk != ""
    ensures |Cut(carry + chunk, ';')| == 1 ==> carry != Last(Cut(carry + chunk, ';'))
  {
    JoinCut(carry + chunk, ';');
  }

  /** A receive that fills the buffer right behind a semicolon, in terms of the text: every
      complete message but the last is handled, and the debugger socket carries that one without
      its semicolon, so the next receive is glued to it. */
  lemma {:induction false} FullBehindSemicolon(loop: Loop, st: Recv, chunk: string)
    requires Tidy(st) && Shaped(st) && chunk != "" && |st.carry| + |chunk| == CAPACITY && chunk[|chunk| - 1] == ';'
    requires Pieces(Cut(st.carry + chunk, ';')) && Free(st.carry + chunk, '\0')
    ensures var ms, t := Front(Cut(st.carry + chunk, ';')), Received(loop, st, chunk);
            && ms != [] && t.handled == st.handled + Front(ms)
            && (loop == DebuggerLoop ==> t.carry == Last(ms) && t.buffer == Padded(t.carry))
  {
    var ps, datas := Cut(st.carry + chunk, ';'), DataTokens(st, chunk);
    SeenSplit(st, chunk, st.carry + chunk, ps, datas);
    HeldBack(loop, st, Overlay(st.buffer, |st.carry|, chunk), datas, |chunk|);
  }

  /** One receive more, from a state that reassembly should have reached. */
  lemma {:induction false} ReachedMoreIff(loop: Loop, t: Recv, a: string, chunk: string)
    requires Reached(t, a) && Shaped(t) && chunk != ""
    requires Pieces(Cut(a + chunk, ';')) && Free(a + chunk, '\0')
    ensures Reached(if |t.carry| + |chunk| <= CAPACITY then Received(loop, t, chunk) else t, a + chunk) <==>
            FairChunk(t.carry, chunk) && KeptChunk(loop, t.carry, chunk)
  {
    CutAppend(a, chunk, ';');
    CutFree(a, ';');
    PiecesParts(Cut(a, ';'), chunk);
    FreeParts(a, chunk);
    if FairChunk(t.carry, chunk) && KeptChunk(loop, t.carry, chunk) {
      ReachedMore(loop, t, a, chunk);
    } else {
      FrontOfBoth(Front(Cut(a, ';')), Cut(t.carry + chunk, ';'));
      if |t.carry| + |chunk| <= CAPACITY {
        FreeJoined(t.carry, chunk);
        WholeIffFair(loop, t, chunk);
      } else {
        NothingReached(t, a, chunk);
      }
    }
  }

  lemma FreeJoined(x: string, y: string)
    requires Free(x, '\0') && Free(y, '\0')
    ensures Free(x + y, '\0')
  {
  }

  lemma NothingReached(t: Recv, a: string, chunk: string)
    requires Reached(t, a) && chunk != ""
    ensures !Reached(t, a + chunk)
  {
    if Reached(t, a + chunk) {
      var p, q := Cut(a, ';'), Cut(a + chunk, ';');
      assert p == Front(p) + [Last(p)] && q == Front(q) + [Last(q)];
      JoinCut(a, ';');
      JoinCut(a + chunk, ';');
    }
  }

  ghost predicate ReachedAt(loop: Loop, chunks: seq<string>, k: nat)
    requires k <= |chunks|
  {
    Shaped(EMPTY) && Reached(ReceivedAll(loop, EMPTY, chunks[..k]), Joined(chunks[..k]))
  }

  lemma {:induction false} LastReceive(loop: Loop, chunks: seq<string>)
    requires chunks != [] && chunks[|chunks| - 1] != ""
    requires Pieces(Cut(Joined(chunks), ';')) && Free(Joined(chunks), '\0')
    requires ReachedAt(loop, chunks, |chunks| - 1)
    ensures ReachedAt(loop, chunks, |chunks|) <==> FairAt(loop, chunks, |chunks| - 1)
  {
    var n := |chunks| - 1;
    assert chunks[..|chunks|] == chunks;
    ReachedMoreIff(loop, ReceivedAll(loop, EMPTY, chunks[..n]), Joined(chunks[..n]), chunks[n]);
  }

  /** The exact condition over a whole run, for both loops: after every receive the messages handled
      are the complete messages of the text so far, and the carry is the rest, if and only if
      every receive is fair. */
  lemma {:induction false} ReassembledIff(loop: Loop, chunks: seq<string>)
    requires forall i | 0 <= i < |chunks| :: chunks[i] != ""
    requires Pieces(Cut(Joined(chunks), ';')) && Free(Joined(chunks), '\0')
    ensures ReachedThroughout(loop, chunks) <==> FairChunks(loop, chunks)
    decreases |chunks|
  {
    TidyIsShaped(EMPTY);
    if chunks == [] {
      assert ReachedAt(loop, chunks, 0);
    } else {
      var n := |chunks| - 1;
      ChunkIsFragment(Joined(chunks[..n]), chunks[n]);
      FreeParts(Joined(chunks[..n]), chunks[n]);
      ReassembledIff(loop, chunks[..n]);
      FairSplits(loop, chunks);
      ReachedSplits(loop, chunks);
      if ReachedThroughout(loop, chunks[..n]) {
        assert ReachedAt(loop, chunks[..n], n) && chunks[..n][..n] == chunks[..n];
        LastReceive(loop, chunks);
      }
    }
  }

  /** After every receive of the run, the start included. */
  ghost predicate ReachedThroughout(loop: Loop, chunks: seq<string>) {
    forall k | 0 <= k <= |chunks| :: ReachedAt(loop, chunks, k)
  }

  lemma FairSplits(loop: Loop, chunks: seq<string>)
    requires chunks != []
    ensures var n := |chunks| - 1;
            FairChunks(loop, chunks) <==> FairChunks(loop, chunks[..n]) && FairAt(loop, chunks, n)
  {
    var n := |chunks| - 1;
    var front := chunks[..n];
    forall i | 0 <= i < n
      ensures FairAt(loop, chunks, i) <==> FairAt(loop, front, i)
    {
      assert front[..i] == chunks[..i] && front[i] == chunks[i];
    }
  }

  lemma ReachedSplits(loop: Loop, chunks: seq<string>)
    requires chunks != []
    ensures ReachedThroughout(loop, chunks) <==>
            ReachedThroughout(loop, chunks[..|chunks| - 1]) && ReachedAt(loop, chunks, |chunks|)
  {
    var front := chunks[..|chunks| - 1];
    forall k | 0 <= k <= |front|
      ensures ReachedAt(loop, chunks, k) <==> ReachedAt(loop, front, k)
    {
      assert front[..k] == chunks[..k];
    }
  }

  /** Both the text before a chunk and what is carried with it are in pieces too. */
  lemma PiecesParts(before: seq<string>, chunk: string)
    requires before != [] && Free(Last(before), ';')
    requires Pieces(Front(before) + Cut(Last(before) + chunk, ';'))
    requires forall i | 0 <= i < |before| :: Free(before[i], ';')
    ensures Pieces(before) && Pieces(Cut(Last(before) + chunk, ';'))
  {
    var after := Cut(Last(before) + chunk, ';');
    var ps := Front(before) + after;
    CutContinues(Last(before), chunk);
    CutFree(Last(before) + chunk, ';');
    assert forall i | 0 <= i < |after| :: after[i] == ps[|before| - 1 + i];
    assert forall i | 0 <= i < |before| - 1 :: before[i] == ps[i];
    assert ps[|before| - 1] == after[0];
  }

  lemma FreeParts(a: string, chunk: string)
    requires Free(a + chunk, '\0')
    ensures Free(a, '\0') && Free(chunk, '\0') && Free(Last(Cut(a, ';')), '\0')
  {
    forall i | 0 <= i < |a|
      ensures a[i] != '\0'
    {
      assert (a + chunk)[i] == a[i];
    }
    forall i | 0 <= i < |chunk|
      ensures chunk[i] != '\0'
    {
      assert (a + chunk)[|a| + i] == chunk[i];
    }
    PieceFree(a, '\0', |Cut(a, ';')| - 1);
  }

  lemma {:induction false} PieceFree(text: string, c: char, i: nat)
    requires i < |Cut(text, ';')| && Free(text, c)
    ensures Free(Cut(text, ';')[i], c)
    decreases |text|
  {
    if text != "" {
      if text[0] == ';' {
        if i > 0 {
          PieceFree(text[1..], c, i - 1);
        }
      } else {
        PieceFree(text[1..], c, i);
      }
    }
  }

  lemma FairFront(loop: Loop, chunks: seq<string>)
    requires chunks != [] && FairChunks(loop, chunks)
    ensures FairChunks(loop, chunks[..|chunks| - 1])
  {
    var front := chunks[..|chunks| - 1];
    forall i | 0 <= i < |front|
      ensures FairAt(loop, front, i)
    {
      assert FairAt(loop, chunks, i);
      assert front[..i] == chunks[..i];
    }
  }

  // ---------- receives that end inside a message ----------

  /** A text that is neither empty nor all spaces has at least one token. */
  lemma TokensExist(s: string)
    requires s != "" && !AllSpaces(s)
    ensures ConverterTokens(s, ';') != []
  {
    var ps := Cut(s, ';');
    if |ps| == 1 {
      JoinCut(s, ';');
      TrimOuter(s);
    }
  }

  /** A receive of any text that does not fill the buffer. */
  predicate ShortChunk(chunk: string) {
    chunk != "" && |chunk| < CAPACITY && Free(chunk, '\0') && !AllSpaces(chunk)
  }

  /** Whatever it ends with, its last piece is handled as a whole message and nothing is carried,
      so the rest of a message that was cut is never joined to its start. */
  lemma ShortReceive(loop: Loop, st: Recv, chunk: string)
    requires Tidy(st) && Shaped(st) && st.carry == "" && ShortChunk(chunk)
    ensures Received(loop, st, chunk) == Recv(Padded(""), "", st.handled + ConverterTokens(chunk, ';'))
  {
    TidyData(st, chunk);
    assert "" + chunk == chunk;
    TokensExist(chunk);
    HandledPart(loop, st, Overlay(st.buffer, 0, chunk), DataTokens(st, chunk), |chunk|);
  }

  /** The messages of each chunk taken for itself. */
  function Separately(chunks: seq<string>): seq<string>
    decreases |chunks|
  {
    if chunks == [] then []
    else Separately(chunks[..|chunks| - 1]) + ConverterTokens(chunks[|chunks| - 1], ';')
  }

  /** So over a run of short receives each is handled for itself. */
  lemma {:induction false} ShortReceives(loop: Loop, chunks: seq<string>)
    requires forall i | 0 <= i < |chunks| :: ShortChunk(chunks[i])
    ensures Shaped(EMPTY) && ReceivedAll(loop, EMPTY, chunks) == Recv(Padded(""), "", Separately(chunks))
    decreases |chunks|
  {
    TidyIsShaped(EMPTY);
    if chunks != [] {
      ShortReceives(loop, chunks[..|chunks| - 1]);
      ShortReceive(loop, ReceivedAll(loop, EMPTY, chunks[..|chunks| - 1]), chunks[|chunks| - 1]);
    }
  }

  predicate EndsMessage(chunk: string) {
    chunk != "" && chunk[|chunk| - 1] == ';'
  }

  /** How many chunks end inside a message. */
  function CutShort(chunks: seq<string>): nat
    decreases |chunks|
  {
    if chunks == [] then 0
    else CutShort(chunks[..|chunks| - 1]) + if EndsMessage(chunks[|chunks| - 1]) then 0 else 1
  }

  /** Text from anywhere in a stream in pieces: only its first piece may be odd. */
  predicate Fragment(ps: seq<string>) {
    && ps != []
    && (forall i | 1 <= i < |ps| :: ps[i] != "" ==> ps[i][0] != ' ')
    && (forall i | 1 <= i < |ps| - 1 :: ps[i] != "")
  }

  lemma {:induction false} FragmentLast(c: seq<string>)
    requires Fragment(c) && |c| >= 2
    ensures Last(Polish(c)) == "" <==> Last(c) == ""
  {
    PolishAt(c, |c| - 1);
    TrimmedTail(Last(c));
  }

  lemma FragmentInner(c: seq<string>)
    requires Fragment(c) && |c| >= 3
    ensures Polish(c)[|c| - 2] != ""
  {
    PolishAt(c, |c| - 2);
  }

  lemma FragmentTokens(chunk: string)
    requires ShortChunk(chunk) && Fragment(Cut(chunk, ';'))
    ensures |ConverterTokens(chunk, ';')| == Count(chunk, ';') + if EndsMessage(chunk) then 0 else 1
  {
    var c := Cut(chunk, ';');
    CutCount(chunk, ';');
    LastPiece(chunk);
    if |c| >= 2 {
      FragmentLast(c);
    }
    if |c| >= 3 {
      FragmentInner(c);
    }
    if |c| == 1 {
      JoinCut(chunk, ';');
      TrimOuter(chunk);
    }
  }

  lemma {:induction false} CutContinues(x: string, b: string)
    requires Free(x, ';')
    ensures Cut(x + b, ';') == [x + Cut(b, ';')[0]] + Cut(b, ';')[1..]
    decreases |x|
  {
    var c := Cut(b, ';');
    if x == "" {
      assert x + b == b && x + c[0] == c[0];
    } else {
      CutContinues(x[1..], b);
      assert (x + b)[1..] == x[1..] + b;
      FirstLonger(x[0], x[1..] + c[0], c[1..]);
      Regroup([x[0]], x[1..], c[0]);
      assert [x[0]] + x[1..] == x;
    }
  }

  lemma FirstLonger(ch: char, p: string, rest: seq<string>)
    ensures var r := [p] + rest; [[ch] + r[0]] + r[1..] == [[ch] + p] + rest
  {
  }

  lemma ContinuationIsFragment(x: string, c: seq<string>)
    requires c != [] && Pieces([x + c[0]] + c[1..])
    ensures Fragment(c)
  {
    var after := [x + c[0]] + c[1..];
    forall i | 1 <= i < |c|
      ensures c[i] != "" ==> c[i][0] != ' '
      ensures i < |c| - 1 ==> c[i] != ""
    {
      assert c[i] == after[i];
    }
  }

  lemma {:induction false} ChunkIsFragment(a: string, chunk: string)
    requires Pieces(Cut(a + chunk, ';'))
    ensures Fragment(Cut(chunk, ';')) && Pieces(Cut(a, ';'))
  {
    CutAppend(a, chunk, ';');
    CutFree(a, ';');
    PiecesParts(Cut(a, ';'), chunk);
    CutContinues(Last(Cut(a, ';')), chunk);
    ContinuationIsFragment(Last(Cut(a, ';')), Cut(chunk, ';'));
  }

  lemma {:induction false} CountAppend(a: string, b: string)
    ensures Count(a + b, ';') == Count(a, ';') + Count(b, ';')
    decreases |a|
  {
    if a == "" {
      assert a + b == b;
    } else {
      CountAppend(a[1..], b);
      assert (a + b)[1..] == a[1..] + b;
    }
  }

  lemma {:induction false} MessageTotal(chunks: seq<string>)
    requires forall i | 0 <= i < |chunks| :: ShortChunk(chunks[i])
    requires Pieces(Cut(Joined(chunks), ';'))
    ensures |Separately(chunks)| == Count(Joined(chunks), ';') + CutShort(chunks)
    decreases |chunks|
  {
    if chunks != [] {
      var front, chunk := chunks[..|chunks| - 1], chunks[|chunks| - 1];
      ChunkIsFragment(Joined(front), chunk);
      MessageTotal(front);
      FragmentTokens(chunk);
      CountAppend(Joined(front), chunk);
    }
  }

  lemma {:induction false} CutShortZero(chunks: seq<string>)
    ensures CutShort(chunks) == 0 <==> forall i | 0 <= i < |chunks| :: EndsMessage(chunks[i])
    decreases |chunks|
  {
    if chunks != [] {
      CutShortZero(chunks[..|chunks| - 1]);
    }
  }

  lemma {:induction false} JoinedFree(chunks: seq<string>, c: char)
    requires forall i | 0 <= i < |chunks| :: Free(chunks[i], c)
    ensures Free(Joined(chunks), c)
    decreases |chunks|
  {
    if chunks != [] {
      JoinedFree(chunks[..|chunks| - 1], c);
    }
  }

  /** Over any run of short receives of a stream, both sockets handle exactly its complete
      messages if and only if every receive ends behind a semicolon. */
  lemma ShortReceivesIff(loop: Loop, chunks: seq<string>)
    requires forall i | 0 <= i < |chunks| :: ShortChunk(chunks[i])
    requires Pieces(Cut(Joined(chunks), ';'))
    ensures Shaped(EMPTY)
    ensures ReceivedAll(loop, EMPTY, chunks).handled == Front(Cut(Joined(chunks), ';')) <==>
            forall i | 0 <= i < |chunks| :: EndsMessage(chunks[i])
  {
    ShortReceives(loop, chunks);
    MessageTotal(chunks);
    CutCount(Joined(chunks), ';');
    CutShortZero(chunks);
    if CutShort(chunks) == 0 {
      JoinedFree(chunks, '\0');
      WholeMessagesAreFair(loop, chunks);
      Reassembled(loop, chunks);
    }
  }

  /** Receives that end on a semicolon without filling the buffer are fair for both loops. */
  lemma WholeMessagesAreFair(loop: Loop, chunks: seq<string>)
    requires forall i | 0 <= i < |chunks| ::
               chunks[i] != "" && |chunks[i]| < CAPACITY && chunks[i][|chunks[i]| - 1] == ';'
    ensures FairChunks(loop, chunks)
  {
    forall i | 0 <= i < |chunks|
      ensures FairAt(loop, chunks, i)
    {
      NoCarryBehindSemicolon(chunks, i);
    }
  }

  lemma {:induction false} NoCarryBehindSemicolon(chunks: seq<string>, i: nat)
    requires i <= |chunks|
    requires forall k | 0 <= k < |chunks| :: chunks[k] != "" && chunks[k][|chunks[k]| - 1] == ';'
    ensures Last(Cut(Joined(chunks[..i]), ';')) == ""
  {
    if i > 0 {
      var text := Joined(chunks[..i]);
      assert chunks[..i][..i - 1] == chunks[..i - 1];
      assert text == Joined(chunks[..i - 1]) + chunks[i - 1];
      LastPiece(text);
    }
  }

  // ---------- facts the loops need ----------

  lemma {:induction false} PolishShort(ps: seq<string>, n: nat)
    requires forall i | 0 <= i < |ps| :: |ps[i]| <= n
    ensures forall i | 0 <= i < |ps| :: |Polish(ps)[i]| <= n && !AllSpaces(Polish(ps)[i])
    decreases |ps|
  {
    if ps != [] {
      TrimOuter(ps[0]);
      if |ps| > 1 {
        PolishShort(ps[1..], n);
      }
    }
  }

  /** Tokens are no longer than the text, and none is a run of spaces. */
  lemma TokensShort(data: string)
    requires data != ""
    ensures forall t | t in ConverterTokens(data, ';') :: |t| <= |data| && !AllSpaces(t)
  {
    forall i | 0 <= i < |Cut(data, ';')|
      ensures |Cut(data, ';')[i]| <= |data|
    {
      PieceLength(data, i);
    }
    PolishShort(Cut(data, ';'), |data|);
    var ps := Polish(Cut(data, ';'));
    forall t | t in DropLastEmpty(ps, ';')
      ensures t in ps || t == [';']
    {
    }
    assert [';'][0] != ' ';
  }
}
