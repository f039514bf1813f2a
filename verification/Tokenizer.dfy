/**
 The two tokenizers: CmdTarget::split (with CmdTarget::trim) and Converter::split.
 Both shrink a local string in a loop; both are proved against the pure cut of the whole
 text. Every caller passes a one-character separator, so a separator is a char here.
 */
module Tokenizer {
  import opened Text

  /** What CmdTarget::split returns. */
  function Tokens(str: string, sep: char): seq<string> {
    if str == "" then []
    else if sep == ' ' then Words(str)
    else Polish(Cut(str, sep))
  }

  /** The end of Converter::split: a last empty piece is dropped, unless two pieces before it
      are there and the one before it is empty too; then the separator itself is returned as
      a last token. */
  function DropLastEmpty(ps: seq<string>, sep: char): seq<string>
    requires ps != []
  {
    var n := |ps|;
    if ps[n - 1] != "" then ps
    else if n >= 3 && ps[n - 2] == "" then Front(ps) + [[sep]]
    else Front(ps)
  }

  lemma DroppedIs(front: seq<string>, last: string, sep: char)
    ensures DropLastEmpty(front + [last], sep) ==
            if last != "" then front + [last]
            else if |front| >= 2 && Last(front) == "" then front + [[sep]]
            else front
  {
    var ps := front + [last];
    assert Front(ps) == front && ps[|ps| - 1] == last;
    assert |front| >= 2 ==> ps[|ps| - 2] == Last(front);
  }

  /** What Converter::split returns for a separator that is not a space. */
  function ConverterTokens(str: string, sep: char): seq<string> {
    DropLastEmpty(Polish(Cut(str, sep)), sep)
  }

  // ---------- the loops ----------

  /** trim; a text of spaces only makes the source read before the start of the string. */
  method TrimSpaces(s: string) returns (r: string)
    requires !AllSpaces(s)
    ensures r == Trim(s)
  {
    if s == "" {
      return "";
    }
    var str := s;
    while str[0] == ' '
      invariant str != "" && !AllSpaces(str)
      invariant TrimLeft(str) == TrimLeft(s)
      decreases |str|
    {
      assert str == [' '] + str[1..];
      str := str[1..];
    }
    while str[|str| - 1] == ' '
      invariant str != "" && !AllSpaces(str)
      invariant TrimRight(str) == Trim(s)
      decreases |str|
    {
      assert str == str[..|str| - 1] + [' '];
      str := str[..|str| - 1];
    }
    return str;
  }

  /** std::string::find; the length stands for npos. */
  method Find(s: string, c: char) returns (pos: nat)
    ensures pos <= |s| && Free(s[..pos], c)
    ensures pos < |s| ==> s[pos] == c
  {
    pos := 0;
    while pos < |s| && s[pos] != c
      invariant 0 <= pos <= |s| && Free(s[..pos], c)
    {
      pos := pos + 1;
    }
  }

  /** The tokens still to come when s, already trimmed, is left. */
  ghost function Rest(s: string, sep: char): (r: seq<string>) {
    if sep == ' ' then Words(s) else Polish(Cut(s, sep))
  }

  lemma RestTrim(s: string, sep: char)
    ensures Rest(Trim(s), sep) == Rest(s, sep)
    ensures NoOuterSpace(Trim(s)) && |Trim(s)| <= |s|
    ensures Trim(s) == "" <==> s == "" || AllSpaces(s)
  {
    TrimOuter(s);
    if sep == ' ' {
      WordsTrim(s);
    } else {
      PolishTrim(s, sep);
    }
  }

  ghost predicate FirstAt(s: string, sep: char, pos: int) {
    0 <= pos <= |s| && Free(s[..pos], sep) && (pos < |s| ==> s[pos] == sep)
  }

  /** The tokens are the piece before the first separator and those of the rest. */
  lemma RestSplit(s: string, pos: nat, sep: char)
    requires NoOuterSpace(s) && FirstAt(s, sep, pos) && pos < |s|
    ensures Rest(s, sep) == [s[..pos]] + Rest(Trim(s[pos + 1..]), sep)
  {
    var tmp, rest := s[..pos], s[pos + 1..];
    assert s == tmp + [sep] + rest;
    assert rest != "" ==> rest[|rest| - 1] == s[|s| - 1];
    RestTrim(rest, sep);
    CutFirst(tmp, sep, rest);
    assert ([tmp] + Cut(rest, sep))[1..] == Cut(rest, sep);
    assert sep == ' ' ==> pos > 0;
    assert sep != ' ' ==> TrimLeft(tmp) == tmp;
  }

  /** One turn of either loop: the piece before the first separator is a finished token. */
  lemma Turn(done: seq<string>, s: string, pos: nat, sep: char)
    requires NoOuterSpace(s) && FirstAt(s, sep, pos) && pos < |s|
    ensures var next := Trim(s[pos + 1..]);
            && NoOuterSpace(next) && |next| < |s| && !AllSpaces(s[pos + 1..])
            && done + Rest(s, sep) == (done + [s[..pos]]) + Rest(next, sep)
            && (sep == ' ' ==> next != "")
            && (next == "" && s[..pos] == "" ==> s == [sep])
  {
    var tmp, rest := s[..pos], s[pos + 1..];
    assert s == tmp + [sep] + rest;
    assert rest != "" ==> rest[|rest| - 1] == s[|s| - 1];
    RestTrim(rest, sep);
    RestSplit(s, pos, sep);
    assert done + ([tmp] + Rest(Trim(rest), sep)) == (done + [tmp]) + Rest(Trim(rest), sep);
  }

  /** The end of either loop: what is left is the last token. */
  lemma LastToken(s: string, sep: char)
    requires Free(s, sep) && NoOuterSpace(s)
    ensures sep != ' ' ==> Rest(s, sep) == [s]
    ensures sep == ' ' ==> Rest(s, sep) == if s == "" then [] else [s]
  {
    CutNone(s, sep);
    TrimIsIdentity(s);
    assert [s][1..] == [];
    assert NonEmpty([s][1..]) == [];
  }

  lemma SeparatorAlone(done: seq<string>, sep: char)
    requires sep != ' '
    ensures done + Rest([sep], sep) == done + [""] + [""]
  {
    CutFirst("", sep, "");
    assert [sep] == "" + [sep] + "";
    assert Cut("", sep) == [""];
    assert ["", ""][1..] == [""];
    assert Polish([""]) == [""];
    assert Polish(["", ""]) == ["", ""];
  }

  /** CmdTarget::split. */
  method Split(str: string, sep: char) returns (result: seq<string>)
    requires !AllSpaces(str)
    ensures result == Tokens(str, sep)
  {
    result := [];
    var s := TrimSpaces(str);
    RestTrim(str, sep);
    ghost var all := Rest(str, sep);
    var pos := Find(s, sep);
    while pos < |s|
      invariant NoOuterSpace(s) && FirstAt(s, sep, pos)
      invariant str == "" ==> s == "" && result == []
      invariant str != "" && sep == ' ' ==> s != ""
      invariant all == result + Rest(s, sep)
      decreases |s|
    {
      Turn(result, s, pos, sep);
      result := result + [s[..pos]];
      s := TrimSpaces(s[pos + 1..]);
      pos := Find(s, sep);
    }
    assert s[..pos] == s;
    LastToken(s, sep);
    if s != "" || (s == "" && str != "") {
      result := result + [s];
    }
  }

  /** Converter::split. */
  method ConverterSplit(str: string, sep: char) returns (result: seq<string>)
    requires !AllSpaces(str) && sep != ' '
    ensures result == ConverterTokens(str, sep)
  {
    result := [];
    var s := TrimSpaces(str);
    RestTrim(str, sep);
    ghost var all := Rest(str, sep);
    var pos := Find(s, sep);
    var stopped := false;
    while pos < |s| && !stopped
      invariant NoOuterSpace(s) && FirstAt(s, sep, pos)
      invariant !stopped ==> all == result + Rest(s, sep)
      invariant !stopped && result != [] ==> s != [sep]
      invariant !stopped && s == "" && |result| >= 2 ==> Last(result) != ""
      invariant stopped ==> s == [sep] && |result| >= 2 && Last(result) == "" && all == result + [""]
      decreases !stopped, |s|
    {
      Turn(result, s, pos, sep);
      result := result + [s[..pos]];
      s := TrimSpaces(s[pos + 1..]);
      if s == [sep] {
        SeparatorAlone(result, sep);
        result := result + [""];
        stopped := true;
      }
      pos := Find(s, sep);
    }
    if !stopped {
      assert s[..pos] == s;
      LastToken(s, sep);
    }
    Ending(all, result, stopped, s, sep);
    if s != "" {
      result := result + [s];
    }
  }

  lemma Ending(all: seq<string>, result: seq<string>, stopped: bool, s: string, sep: char)
    requires !stopped ==> all == result + [s] && (s == "" && |result| >= 2 ==> Last(result) != "")
    requires stopped ==> s == [sep] && |result| >= 2 && Last(result) == "" && all == result + [""]
    ensures all != [] && DropLastEmpty(all, sep) == if s != "" then result + [s] else result
  {
    assert Front(all) == result;
  }

  // ---------- what the tokens are ----------

  /** With a separator other than a space: one token per piece, each piece without its leading
      spaces, the last without its trailing spaces either. */
  lemma TokensExact(str: string, sep: char)
    requires sep != ' '
    ensures |Tokens(str, sep)| == if str == "" then 0 else Count(str, sep) + 1
    ensures forall i | 0 <= i < |Tokens(str, sep)| ::
              Tokens(str, sep)[i] == if i == Count(str, sep) then Trim(Cut(str, sep)[i]) else TrimLeft(Cut(str, sep)[i])
  {
    CutCount(str, sep);
    forall i | 0 <= i < |Tokens(str, sep)|
      ensures Tokens(str, sep)[i] == if i == Count(str, sep) then Trim(Cut(str, sep)[i]) else TrimLeft(Cut(str, sep)[i])
    {
      PolishAt(Cut(str, sep), i);
    }
  }

  /** Splitting at a space gives back any list of words from their space-joined text, ... */
  lemma {:induction false} WordsOfJoin(ws: seq<string>)
    requires forall i | 0 <= i < |ws| :: ws[i] != "" && Free(ws[i], ' ')
    ensures Tokens(Join(ws, ' '), ' ') == ws
  {
    if ws != [] {
      CutJoin(ws, ' ');
      NonEmptyIsIdentity(ws);
    }
  }

  lemma {:induction false} NonEmptyIsIdentity(ws: seq<string>)
    requires forall i | 0 <= i < |ws| :: ws[i] != ""
    ensures NonEmpty(ws) == ws
  {
    if ws != [] {
      NonEmptyIsIdentity(ws[1..]);
    }
  }

  /** ... for every text the words are non-empty, hold no space, and together hold every other
      character in order, ... */
  lemma WordsKeepText(str: string)
    ensures forall i | 0 <= i < |Tokens(str, ' ')| :: Tokens(str, ' ')[i] != "" && Free(Tokens(str, ' ')[i], ' ')
    ensures Concat(Tokens(str, ' ')) == WithoutSpaces(str)
  {
    CutFree(str, ' ');
    NonEmptyFacts(Cut(str, ' '), ' ');
    ConcatCut(str);
  }

  /** ... and they are maximal: a text without spaces is one word, and words end exactly at
      spaces. This determines the words of every text. */
  lemma WordsExact(a: string, b: string)
    ensures Tokens(a + " " + b, ' ') == Tokens(a, ' ') + Tokens(b, ' ')
    ensures Free(a, ' ') ==> Tokens(a, ' ') == if a == "" then [] else [a]
  {
    CutAtSpace(a, b);
    NonEmptyAppend(Cut(a, ' '), Cut(b, ' '));
    if Free(a, ' ') {
      CutNone(a, ' ');
      NonEmptyIsIdentity(if a == "" then [] else [a]);
    }
  }

  lemma CutAtSpace(a: string, b: string)
    ensures Cut(a + " " + b, ' ') == Cut(a, ' ') + Cut(b, ' ')
  {
    var p := Cut(a, ' ');
    Regroup(a, " ", b);
    CutAppend(a, " " + b, ' ');
    CutFree(a, ' ');
    CutFirst(Last(p), ' ', b);
    Regroup(Last(p), " ", b);
    FrontLast(p, Cut(b, ' '));
  }

  lemma FrontLast(p: seq<string>, q: seq<string>)
    requires p != []
    ensures Front(p) + ([Last(p)] + q) == p + q
  {
  }

  function Concat(ps: seq<string>): string {
    if ps == [] then "" else ps[0] + Concat(ps[1..])
  }

  function WithoutSpaces(s: string): string {
    if s == "" then "" else (if s[0] == ' ' then "" else [s[0]]) + WithoutSpaces(s[1..])
  }

  lemma {:induction false} NonEmptyFacts(ps: seq<string>, c: char)
    requires forall i | 0 <= i < |ps| :: Free(ps[i], c)
    ensures forall i | 0 <= i < |NonEmpty(ps)| :: NonEmpty(ps)[i] != "" && Free(NonEmpty(ps)[i], c)
    ensures Concat(NonEmpty(ps)) == Concat(ps)
  {
    if ps != [] {
      NonEmptyFacts(ps[1..], c);
      if ps[0] != "" {
        assert NonEmpty(ps)[1..] == NonEmpty(ps[1..]);
      } else {
        assert NonEmpty(ps) == NonEmpty(ps[1..]);
      }
    }
  }

  lemma ConcatCons(p: string, ps: seq<string>)
    ensures Concat([p] + ps) == p + Concat(ps)
  {
    assert ([p] + ps)[1..] == ps;
  }

  lemma ConcatLonger(c: char, ps: seq<string>)
    requires ps != []
    ensures Concat([[c] + ps[0]] + ps[1..]) == [c] + Concat(ps)
  {
    ConcatCons([c] + ps[0], ps[1..]);
    Regroup([c], ps[0], Concat(ps[1..]));
  }

  lemma {:induction false} ConcatCut(s: string)
    ensures Concat(Cut(s, ' ')) == WithoutSpaces(s)
  {
    if s == "" {
      ConcatCons("", []);
    } else {
      var r := Cut(s[1..], ' ');
      ConcatCut(s[1..]);
      if s[0] == ' ' {
        ConcatCons("", r);
      } else {
        ConcatLonger(s[0], r);
      }
    }
  }

  /** A text that starts and ends without a space and whose pieces start without one is cut
      by Converter::split at every separator, provided the text does not end in it. */
  lemma {:induction false} ConverterTokensOfPieces(ps: seq<string>, sep: char)
    requires sep != ' ' && ps != []
    requires forall i | 0 <= i < |ps| :: Free(ps[i], sep) && (ps[i] != "" ==> ps[i][0] != ' ')
    requires NoOuterSpace(Last(ps))
    ensures ConverterTokens(Join(ps, sep), sep) == DropLastEmpty(ps, sep)
  {
    CutJoin(ps, sep);
    PolishIsIdentity(ps);
  }

  lemma {:induction false} PolishIsIdentity(ps: seq<string>)
    requires ps != []
    requires forall i | 0 <= i < |ps| :: ps[i] != "" ==> ps[i][0] != ' '
    requires NoOuterSpace(Last(ps))
    ensures Polish(ps) == ps
    decreases |ps|
  {
    if |ps| == 1 {
      TrimIsIdentity(ps[0]);
    } else {
      PolishIsIdentity(ps[1..]);
    }
  }
}
