/**
 Pure reference definitions on strings: cutting at a separator, joining, and trimming
 spaces. The tokenizers of the source are loops; they are proved against these.
 */
module Text {

  // ---------- spaces ----------

  predicate AllSpaces(s: string) {
    s != "" && forall i | 0 <= i < |s| :: s[i] == ' '
  }

  function TrimLeft(s: string): (r: string)
    ensures |r| <= |s|
    ensures r != "" ==> r[0] != ' '
  {
    if s != "" && s[0] == ' ' then TrimLeft(s[1..]) else s
  }

  function TrimRight(s: string): (r: string)
    ensures |r| <= |s|
    ensures r != "" ==> r[|r| - 1] != ' '
  {
    if s != "" && s[|s| - 1] == ' ' then TrimRight(s[..|s| - 1]) else s
  }

  lemma {:induction false} TrimLeftDrops(s: string)
    ensures var k := |s| - |TrimLeft(s)|;
            TrimLeft(s) == s[k..] && forall i | 0 <= i < k :: s[i] == ' '
    decreases |s|
  {
    if s != "" && s[0] == ' ' {
      TrimLeftDrops(s[1..]);
      assert s == [' '] + s[1..];
    }
  }

  lemma {:induction false} TrimRightDrops(s: string)
    ensures var k := |TrimRight(s)|;
            TrimRight(s) == s[..k] && forall i | k <= i < |s| :: s[i] == ' '
    decreases |s|
  {
    if s != "" && s[|s| - 1] == ' ' {
      TrimRightDrops(s[..|s| - 1]);
      assert s == s[..|s| - 1] + [' '];
    }
  }

  function Trim(s: string): string {
    TrimRight(TrimLeft(s))
  }

  /** No space at either end. */
  predicate NoOuterSpace(s: string) {
    s != "" ==> s[0] != ' ' && s[|s| - 1] != ' '
  }

  lemma TrimIsIdentity(s: string)
    requires NoOuterSpace(s)
    ensures TrimLeft(s) == s && TrimRight(s) == s && Trim(s) == s
  {
  }

  lemma TrimOuter(s: string)
    ensures NoOuterSpace(Trim(s)) && |Trim(s)| <= |s|
    ensures Trim(Trim(s)) == Trim(s)
    ensures Trim(s) == "" <==> s == "" || AllSpaces(s)
  {
    var t := TrimLeft(s);
    var r := TrimRight(t);
    TrimLeftDrops(s);
    TrimRightDrops(t);
    if r != "" {
      assert t[0] == r[0] == s[|s| - |t|];
    }
    TrimIsIdentity(r);
  }

  lemma {:induction false} TrimLeftAppendSpace(s: string)
    ensures TrimLeft(s + " ") == if TrimLeft(s) == "" then "" else TrimLeft(s) + " "
    decreases |s|
  {
    var t := s + " ";
    if s == "" {
      assert t[0] == ' ' && t[1..] == "";
    } else if s[0] == ' ' {
      assert t[1..] == s[1..] + " ";
      TrimLeftAppendSpace(s[1..]);
    } else {
      assert t[0] != ' ';
    }
  }

  lemma TrimAppendSpace(s: string)
    ensures Trim(s + " ") == Trim(s)
  {
    TrimLeftAppendSpace(s);
    var t := TrimLeft(s);
    if t != "" {
      assert (t + " ")[..|t|] == t;
    }
  }

  lemma Regroup<T>(a: seq<T>, b: seq<T>, c: seq<T>)
    ensures (a + b) + c == a + (b + c)
  {
  }

  // ---------- cutting and joining ----------

  predicate Free(s: string, c: char) {
    forall i | 0 <= i < |s| :: s[i] != c
  }

  /** The pieces of s between separators; one more than there are separators. */
  function Cut(s: string, sep: char): (r: seq<string>)
    ensures |r| >= 1
  {
    if s == "" then [""]
    else if s[0] == sep then [""] + Cut(s[1..], sep)
    else var r := Cut(s[1..], sep); [[s[0]] + r[0]] + r[1..]
  }

  lemma {:induction false} CutFree(s: string, sep: char)
    ensures forall i | 0 <= i < |Cut(s, sep)| :: Free(Cut(s, sep)[i], sep)
    decreases |s|
  {
    if s != "" {
      CutFree(s[1..], sep);
    }
  }

  function Join(ps: seq<string>, sep: char): string {
    if ps == [] then ""
    else if |ps| == 1 then ps[0]
    else ps[0] + [sep] + Join(ps[1..], sep)
  }

  function Count(s: string, c: char): nat {
    if s == "" then 0 else (if s[0] == c then 1 else 0) + Count(s[1..], c)
  }

  lemma {:induction false} CutCount(s: string, sep: char)
    ensures |Cut(s, sep)| == Count(s, sep) + 1
  {
    if s != "" {
      CutCount(s[1..], sep);
    }
  }

  lemma {:induction false} JoinCut(s: string, sep: char)
    ensures Join(Cut(s, sep), sep) == s
  {
    if s != "" {
      JoinCut(s[1..], sep);
      assert s == [s[0]] + s[1..];
      if s[0] == sep {
        assert "" + [sep] + s[1..] == s;
      }
    }
  }

  /** Cutting a piece free of separators followed by a separator and more text. */
  lemma {:induction false} CutFirst(p: string, sep: char, rest: string)
    requires Free(p, sep)
    ensures Cut(p + [sep] + rest, sep) == [p] + Cut(rest, sep)
    decreases |p|
  {
    var s := p + [sep] + rest;
    if p == "" {
      assert s[1..] == rest;
    } else {
      assert s[1..] == p[1..] + [sep] + rest;
      CutFirst(p[1..], sep, rest);
      assert [s[0]] + p[1..] == p;
      assert ([p[1..]] + Cut(rest, sep))[1..] == Cut(rest, sep);
    }
  }

  lemma {:induction false} CutNone(s: string, sep: char)
    requires Free(s, sep)
    ensures Cut(s, sep) == [s]
    decreases |s|
  {
    if s != "" {
      CutNone(s[1..], sep);
      assert [s[0]] + s[1..] == s;
    }
  }

  lemma {:induction false} CutJoin(ps: seq<string>, sep: char)
    requires ps != []
    requires forall i | 0 <= i < |ps| :: Free(ps[i], sep)
    ensures Cut(Join(ps, sep), sep) == ps
    decreases |ps|
  {
    if |ps| == 1 {
      CutNone(ps[0], sep);
    } else {
      CutJoin(ps[1..], sep);
      CutFirst(ps[0], sep, Join(ps[1..], sep));
    }
  }

  function Last(ps: seq<string>): string
    requires ps != []
  {
    ps[|ps| - 1]
  }

  function Front(ps: seq<string>): seq<string>
    requires ps != []
  {
    ps[..|ps| - 1]
  }

  /** More text only affects the last piece of what was cut before. */
  lemma {:induction false} CutAppend(a: string, b: string, sep: char)
    ensures Cut(a + b, sep) == Front(Cut(a, sep)) + Cut(Last(Cut(a, sep)) + b, sep)
    decreases |a|
  {
    if a == "" {
      assert a + b == b;
    } else {
      var q := Cut(a[1..], sep);
      CutAppend(a[1..], b, sep);
      assert (a + b)[1..] == a[1..] + b;
      if a[0] == sep {
        CutAppendSep(a, q, Cut(Last(q) + b, sep));
      } else {
        CutAppendChar(a[0], q, b, sep);
      }
    }
  }

  lemma CutAppendSep(a: string, q: seq<string>, tail: seq<string>)
    requires q != []
    ensures [""] + (Front(q) + tail) == Front([""] + q) + tail
    ensures Last([""] + q) == Last(q)
  {
  }

  lemma CutAppendChar(c: char, q: seq<string>, b: string, sep: char)
    requires q != [] && c != sep
    ensures var r := Front(q) + Cut(Last(q) + b, sep);
            var p := [[c] + q[0]] + q[1..];
            [[c] + r[0]] + r[1..] == Front(p) + Cut(Last(p) + b, sep)
  {
    var p := [[c] + q[0]] + q[1..];
    if |q| == 1 {
      assert Last(p) + b == [c] + (q[0] + b);
      assert ([c] + (q[0] + b))[1..] == q[0] + b;
    } else {
      assert Last(p) == Last(q);
      assert Front(p) == [[c] + q[0]] + Front(q)[1..];
    }
  }

  /** Each piece without leading spaces, and the last one without trailing spaces either. */
  function Polish(ps: seq<string>): (r: seq<string>)
    ensures |r| == |ps|
  {
    if ps == [] then []
    else if |ps| == 1 then [Trim(ps[0])]
    else [TrimLeft(ps[0])] + Polish(ps[1..])
  }

  lemma {:induction false} PolishAt(ps: seq<string>, i: nat)
    requires i < |ps|
    ensures Polish(ps)[i] == if i == |ps| - 1 then Trim(ps[i]) else TrimLeft(ps[i])
  {
    if i > 0 {
      PolishAt(ps[1..], i - 1);
    }
  }

  lemma {:induction false} PolishedIsFree(ps: seq<string>, c: char)
    requires forall i | 0 <= i < |ps| :: Free(ps[i], c)
    ensures forall i | 0 <= i < |ps| :: Free(Polish(ps)[i], c)
    decreases |ps|
  {
    if ps != [] {
      TrimLeftDrops(ps[0]);
      TrimRightDrops(TrimLeft(ps[0]));
      if |ps| > 1 {
        PolishedIsFree(ps[1..], c);
      }
    }
  }

  lemma {:induction false} PolishTrimLeft(s: string, sep: char)
    requires sep != ' '
    ensures Polish(Cut(TrimLeft(s), sep)) == Polish(Cut(s, sep))
    decreases |s|
  {
    if s != "" && s[0] == ' ' {
      PolishTrimLeft(s[1..], sep);
      var r := Cut(s[1..], sep);
      assert ([' '] + r[0])[1..] == r[0];
      assert Polish(Cut(s, sep)) == Polish(r);
    }
  }

  lemma {:induction false} PolishTrimRight(s: string, sep: char)
    requires sep != ' '
    ensures Polish(Cut(TrimRight(s), sep)) == Polish(Cut(s, sep))
    decreases |s|
  {
    if s != "" && s[|s| - 1] == ' ' {
      var t := s[..|s| - 1];
      PolishTrimRight(t, sep);
      assert s == t + " ";
      CutAppend(t, " ", sep);
      var p := Cut(t, sep);
      CutFree(t, sep);
      CutNone(Last(p) + " ", sep);
      TrimAppendSpace(Last(p));
      PolishLast(p, Last(p) + " ");
    }
  }

  lemma {:induction false} PolishLast(p: seq<string>, last: string)
    requires p != [] && Trim(last) == Trim(Last(p))
    ensures Polish(Front(p) + [last]) == Polish(p)
    decreases |p|
  {
    if |p| > 1 {
      PolishLast(p[1..], last);
      assert (Front(p) + [last])[1..] == Front(p[1..]) + [last];
    }
  }

  lemma PolishTrim(s: string, sep: char)
    requires sep != ' '
    ensures Polish(Cut(Trim(s), sep)) == Polish(Cut(s, sep))
  {
    PolishTrimLeft(s, sep);
    PolishTrimRight(TrimLeft(s), sep);
  }

  // ---------- space-separated words ----------

  function NonEmpty(ps: seq<string>): (r: seq<string>) {
    if ps == [] then []
    else (if ps[0] == "" then [] else [ps[0]]) + NonEmpty(ps[1..])
  }

  lemma {:induction false} NonEmptyAppend(a: seq<string>, b: seq<string>)
    ensures NonEmpty(a + b) == NonEmpty(a) + NonEmpty(b)
    decreases |a|
  {
    if a == [] {
      assert a + b == b;
    } else {
      NonEmptyAppend(a[1..], b);
      assert (a + b)[1..] == a[1..] + b;
      Regroup(if a[0] == "" then [] else [a[0]], NonEmpty(a[1..]), NonEmpty(b));
    }
  }

  /** The maximal runs of non-space characters. */
  function Words(s: string): seq<string> {
    NonEmpty(Cut(s, ' '))
  }

  lemma {:induction false} WordsTrimLeft(s: string)
    ensures Words(TrimLeft(s)) == Words(s)
    decreases |s|
  {
    if s != "" && s[0] == ' ' {
      WordsTrimLeft(s[1..]);
      assert Cut(s, ' ')[1..] == Cut(s[1..], ' ');
    }
  }

  lemma {:induction false} WordsTrimRight(s: string)
    ensures Words(TrimRight(s)) == Words(s)
    decreases |s|
  {
    if s != "" && s[|s| - 1] == ' ' {
      var t := s[..|s| - 1];
      WordsTrimRight(t);
      assert s == t + " ";
      CutAppend(t, " ", ' ');
      var p := Cut(t, ' ');
      CutFree(t, ' ');
      CutFirst(Last(p), ' ', "");
      assert Last(p) + " " == Last(p) + [' '] + "";
      assert p == Front(p) + [Last(p)];
      assert Cut(s, ' ') == p + [""];
      NonEmptyAppend(p, [""]);
      assert NonEmpty([""]) == [];
    }
  }

  lemma WordsTrim(s: string)
    ensures Words(Trim(s)) == Words(s)
  {
    WordsTrimLeft(s);
    WordsTrimRight(TrimLeft(s));
  }
}
