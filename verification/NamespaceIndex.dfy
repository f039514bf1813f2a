/**
 The prefix-to-children index that ObjectManager keeps beside its flat map of data names: what
 it should be for a set of names, and what a walk through it can reach.
 */
module NamespaceIndex {
  import opened Text
  import opened Tokenizer

  type Path = seq<string>

  type Index = map<string, set<string>>

  /** The non-empty tokens of a name, in order. */
  function Components(name: string): Path {
    NonEmpty(ConverterTokens(name, '/'))
  }

  /** The index key of a path: "/" alone, or every component between slashes. */
  function Key(path: Path): string
    decreases |path|
  {
    if path == [] then "/" else Key(path[..|path| - 1]) + path[|path| - 1] + "/"
  }

  function Children(ix: Index, key: string): set<string> {
    if key in ix then ix[key] else {}
  }

  /** The index after inserting each component of a path under the key of what precedes it. */
  function Inserted(ix: Index, path: Path): Index
    decreases |path|
  {
    if path == [] then ix
    else
      var r := Inserted(ix, path[..|path| - 1]);
      var key := Key(path[..|path| - 1]);
      r[key := Children(r, key) + {path[|path| - 1]}]
  }

  /** Component c stands right after the prefix with this key in the path. */
  ghost predicate Edge(path: Path, key: string, c: string) {
    exists i | 0 <= i < |path| :: EdgeAt(path, i, key, c)
  }

  ghost predicate EdgeAt(path: Path, i: nat, key: string, c: string)
    requires i < |path|
  {
    Key(path[..i]) == key && path[i] == c
  }

  /** ... in the path of one of the names. */
  ghost predicate Linked(names: set<string>, key: string, c: string) {
    exists n | n in names :: Edge(Components(n), key, c)
  }

  ghost function KeysOf(names: set<string>): set<string> {
    set n, i | n in names && 0 <= i < |Components(n)| :: Key(Components(n)[..i])
  }

  ghost function ChildrenOf(names: set<string>, key: string): set<string> {
    set n, i | n in names && 0 <= i < |Components(n)| && Key(Components(n)[..i]) == key :: Components(n)[i]
  }

  /** The index recomputed from scratch from a set of names: every key that precedes some
      component, with all the components it precedes. */
  ghost function IndexOf(names: set<string>): Index {
    map key | key in KeysOf(names) :: ChildrenOf(names, key)
  }

  lemma ChildrenLinked(names: set<string>, key: string, c: string)
    ensures c in ChildrenOf(names, key) <==> Linked(names, key, c)
    ensures Linked(names, key, c) ==> key in KeysOf(names)
  {
    if c in ChildrenOf(names, key) {
      var n, i :| n in names && 0 <= i < |Components(n)| && Key(Components(n)[..i]) == key && Components(n)[i] == c;
      assert EdgeAt(Components(n), i, key, c);
      assert Edge(Components(n), key, c);
    }
    if Linked(names, key, c) {
      var n :| n in names && Edge(Components(n), key, c);
      var i :| 0 <= i < |Components(n)| && EdgeAt(Components(n), i, key, c);
      assert Key(Components(n)[..i]) == key;
    }
  }

  lemma KeysLinked(names: set<string>, key: string)
    requires key in KeysOf(names)
    ensures exists c :: Linked(names, key, c)
  {
    var n, i :| n in names && 0 <= i < |Components(n)| && Key(Components(n)[..i]) == key;
    ChildrenLinked(names, key, Components(n)[i]);
    assert Linked(names, key, Components(n)[i]);
  }

  lemma {:induction false} IndexLinked(names: set<string>, key: string, c: string)
    ensures c in Children(IndexOf(names), key) <==> Linked(names, key, c)
  {
    ChildrenLinked(names, key, c);
  }

  lemma {:induction false} InsertedEdges(ix: Index, path: Path, key: string)
    ensures key in Inserted(ix, path) <==> key in ix || exists c :: Edge(path, key, c)
    ensures forall c :: c in Children(Inserted(ix, path), key) <==> c in Children(ix, key) || Edge(path, key, c)
    decreases |path|
  {
    if path != [] {
      var front, last := path[..|path| - 1], path[|path| - 1];
      InsertedEdges(ix, front, key);
      forall c
        ensures Edge(path, key, c) <==> Edge(front, key, c) || (key == Key(front) && c == last)
      {
        EdgeSnoc(front, last, key, c);
        assert front + [last] == path;
      }
      if key == Key(front) {
        assert Edge(path, key, last);
      }
    }
  }

  lemma EdgeSnoc(front: Path, last: string, key: string, c: string)
    ensures Edge(front + [last], key, c) <==> Edge(front, key, c) || (key == Key(front) && c == last)
  {
    var path := front + [last];
    assert path[..|front|] == front;
    if Edge(path, key, c) {
      var i :| 0 <= i < |path| && EdgeAt(path, i, key, c);
      if i < |front| {
        assert path[..i] == front[..i];
        assert EdgeAt(front, i, key, c);
      }
    }
    if Edge(front, key, c) {
      var i :| 0 <= i < |front| && EdgeAt(front, i, key, c);
      assert path[..i] == front[..i];
      assert EdgeAt(path, i, key, c);
    }
    if key == Key(front) && c == last {
      assert EdgeAt(path, |front|, key, c);
    }
  }

  /** No key is kept without children. */
  ghost predicate Tight(ix: Index) {
    forall key | key in ix :: ix[key] != {}
  }

  lemma {:induction false} IndexOfTight(names: set<string>)
    ensures Tight(IndexOf(names))
  {
    forall key | key in IndexOf(names)
      ensures IndexOf(names)[key] != {}
    {
      KeysLinked(names, key);
      var c :| Linked(names, key, c);
      IndexLinked(names, key, c);
    }
  }

  lemma {:induction false} InsertedTight(ix: Index, path: Path)
    requires Tight(ix)
    ensures Tight(Inserted(ix, path))
    decreases |path|
  {
    if path != [] {
      InsertedTight(ix, path[..|path| - 1]);
      assert path[|path| - 1] in Inserted(ix, path)[Key(path[..|path| - 1])];
    }
  }

  lemma TightEqual(a: Index, b: Index)
    requires Tight(a) && Tight(b)
    requires forall key :: Children(a, key) == Children(b, key)
    ensures a == b
  {
    forall key
      ensures key in a <==> key in b
    {
      assert Children(a, key) == Children(b, key);
    }
    forall key | key in a
      ensures a[key] == b[key]
    {
      assert Children(a, key) == Children(b, key);
    }
  }

  lemma LinkedMore(names: set<string>, name: string, key: string, c: string)
    ensures Linked(names + {name}, key, c) <==> Linked(names, key, c) || Edge(Components(name), key, c)
  {
  }

  /** Inserting the components of one more name into the index of some names gives the index
      of all of them; so the index depends on the set of names only, not on their order. */
  lemma {:induction false} InsertIntoIndex(names: set<string>, name: string)
    ensures Inserted(IndexOf(names), Components(name)) == IndexOf(names + {name})
  {
    var a, b := Inserted(IndexOf(names), Components(name)), IndexOf(names + {name});
    IndexOfTight(names);
    InsertedTight(IndexOf(names), Components(name));
    IndexOfTight(names + {name});
    forall key
      ensures Children(a, key) == Children(b, key)
    {
      InsertedEdges(IndexOf(names), Components(name), key);
      forall c
        ensures c in Children(a, key) <==> c in Children(b, key)
      {
        IndexLinked(names, key, c);
        IndexLinked(names + {name}, key, c);
        LinkedMore(names, name, key, c);
      }
    }
    TightEqual(a, b);
  }

  /** A name registerObject does not refuse for its form. */
  predicate Acceptable(name: string) {
    name != "" && name[0] == '/' && name != "/"
  }

  /** The index after a run of registration attempts: names of a bad form and names already
      taken are refused, the others inserted. */
  function AfterAttempts(ix: Index, taken: set<string>, names: seq<string>): Index
    decreases |names|
  {
    if names == [] then ix
    else if Acceptable(names[0]) && names[0] !in taken
    then AfterAttempts(Inserted(ix, Components(names[0])), taken + {names[0]}, names[1..])
    else AfterAttempts(ix, taken, names[1..])
  }

  function AcceptableOf(names: seq<string>): set<string> {
    set n | n in names && Acceptable(n)
  }

  /** After any run of attempts, refused ones included, the index is the one recomputed from
      the set of acceptable names: order and repetition do not matter. */
  lemma {:induction false} AttemptsIndexNames(taken: set<string>, names: seq<string>)
    ensures AfterAttempts(IndexOf(taken), taken, names) == IndexOf(taken + AcceptableOf(names))
    decreases |names|
  {
    if names == [] {
      assert taken + AcceptableOf(names) == taken;
    } else {
      var n, rest := names[0], names[1..];
      assert names == [n] + rest;
      if Acceptable(n) && n !in taken {
        InsertIntoIndex(taken, n);
        AttemptsIndexNames(taken + {n}, rest);
        assert taken + AcceptableOf(names) == (taken + {n}) + AcceptableOf(rest);
      } else {
        AttemptsIndexNames(taken, rest);
        assert taken + AcceptableOf(names) == taken + AcceptableOf(rest);
      }
    }
  }

  // ---------- keys identify prefixes ----------

  predicate Plain(c: string) {
    c != "" && Free(c, '/')
  }

  /** The shape of the components of any name: plain, except that the last may be "/", which
      is what a name ending in two slashes leaves behind. */
  predicate WellShaped(path: Path) {
    forall i | 0 <= i < |path| :: Plain(path[i]) || (i == |path| - 1 && path[i] == "/")
  }

  predicate AllPlain(path: Path) {
    forall i | 0 <= i < |path| :: Plain(path[i])
  }

  lemma {:induction false} NonEmptyShape(ps: seq<string>)
    requires forall i | 0 <= i < |ps| :: Free(ps[i], '/') || (i == |ps| - 1 && ps[i] == "/")
    ensures WellShaped(NonEmpty(ps))
    decreases |ps|
  {
    if ps != [] {
      NonEmptyShape(ps[1..]);
      if |ps| == 1 {
        assert NonEmpty(ps[1..]) == [];
      }
    }
  }

  lemma ComponentsShape(name: string)
    ensures WellShaped(Components(name))
  {
    CutFree(name, '/');
    PolishedIsFree(Cut(name, '/'), '/');
    NonEmptyShape(ConverterTokens(name, '/'));
  }

  /** The name's last piece is blank and so is the one before it, which is not the first. */
  predicate EndsInTwoSlashes(name: string) {
    LastTwoBlank(Cut(name, '/'))
  }

  predicate LastTwoBlank(cut: seq<string>) {
    |cut| >= 3 && Trim(cut[|cut| - 1]) == "" && TrimLeft(cut[|cut| - 2]) == ""
  }

  lemma {:induction false} NonEmptyPlain(ps: seq<string>)
    requires forall i | 0 <= i < |ps| :: Free(ps[i], '/')
    ensures AllPlain(NonEmpty(ps))
    decreases |ps|
  {
    if ps != [] {
      NonEmptyPlain(ps[1..]);
    }
  }

  lemma NonEmptyMore(front: seq<string>, c: string)
    ensures NonEmpty(front + [c]) == if c == "" then NonEmpty(front) else NonEmpty(front) + [c]
  {
    NonEmptyAppend(front, [c]);
  }

  lemma {:induction false} NonEmptyOfDropped(front: seq<string>, last: string)
    ensures var r := NonEmpty(front + [last]);
            NonEmpty(DropLastEmpty(front + [last], '/')) ==
            if last == "" && |front| >= 2 && Last(front) == "" then r + ["/"] else r
  {
    DroppedIs(front, last, '/');
    NonEmptyMore(front, "");
    NonEmptyMore(front, "/");
  }

  lemma SlashIsNotPlain(path: Path)
    ensures !AllPlain(path + ["/"])
  {
    assert (path + ["/"])[|path|] == "/" && "/"[0] == '/';
  }

  /** For every name: its components are its pieces without outer spaces, blank ones left out,
      and in exactly one case a component "/" follows that no part of the name spells. */
  lemma ComponentsExact(name: string)
    ensures var r := NonEmpty(Polish(Cut(name, '/')));
            Components(name) == if EndsInTwoSlashes(name) then r + ["/"] else r
    ensures AllPlain(Components(name)) <==> !EndsInTwoSlashes(name)
  {
    PiecesPlain(name);
    ComponentsOfPieces(Cut(name, '/'), Polish(Cut(name, '/')), NonEmpty(Polish(Cut(name, '/'))), Components(name));
  }

  lemma ComponentsOfPieces(cut: seq<string>, ps: seq<string>, r: Path, components: Path)
    requires cut != [] && ps == Polish(cut) && r == NonEmpty(ps) && AllPlain(r)
    requires components == NonEmpty(DropLastEmpty(ps, '/'))
    ensures components == if LastTwoBlank(cut) then r + ["/"] else r
    ensures AllPlain(components) <==> !LastTwoBlank(cut)
  {
    BlankEnd(cut, ps);
    NonEmptyDropped(ps, r);
    SlashIsNotPlain(r);
  }

  lemma PiecesPlain(name: string)
    ensures AllPlain(NonEmpty(Polish(Cut(name, '/'))))
  {
    CutFree(name, '/');
    PolishedIsFree(Cut(name, '/'), '/');
    NonEmptyPlain(Polish(Cut(name, '/')));
  }

  predicate LastTwoEmpty(ps: seq<string>)
    requires ps != []
  {
    Last(ps) == "" && |Front(ps)| >= 2 && Last(Front(ps)) == ""
  }

  lemma NonEmptyDropped(ps: seq<string>, r: Path)
    requires ps != [] && r == NonEmpty(ps)
    ensures NonEmpty(DropLastEmpty(ps, '/')) == if LastTwoEmpty(ps) then r + ["/"] else r
  {
    assert ps == Front(ps) + [Last(ps)];
    NonEmptyOfDropped(Front(ps), Last(ps));
  }

  lemma BlankEnd(cut: seq<string>, ps: seq<string>)
    requires cut != [] && ps == Polish(cut)
    ensures LastTwoEmpty(ps) <==> LastTwoBlank(cut)
  {
    PolishAt(cut, |cut| - 1);
    if |cut| >= 2 {
      PolishAt(cut, |cut| - 2);
    }
  }

  lemma {:induction false} JoinSnoc(ps: seq<string>, last: string, sep: char)
    requires ps != []
    ensures Join(ps + [last], sep) == Join(ps, sep) + [sep] + last
    decreases |ps|
  {
    if |ps| > 1 {
      JoinSnoc(ps[1..], last, sep);
      assert (ps + [last])[1..] == ps[1..] + [last];
    }
  }

  /** A key is the slash-join of its path with an empty piece at either end. */
  lemma {:induction false} KeyIsJoin(path: Path)
    ensures Key(path) == Join([""] + path + [""], '/')
    decreases |path|
  {
    if path == [] {
      assert [""] + path + [""] == ["", ""];
      assert ["", ""][1..] == [""];
    } else {
      var front, last := path[..|path| - 1], path[|path| - 1];
      KeyIsJoin(front);
      assert [""] + path == [""] + front + [last];
      JoinSnoc([""] + front, "", '/');
      JoinSnoc([""] + front, last, '/');
      JoinSnoc([""] + path, "", '/');
    }
  }

  lemma KeyCut(path: Path)
    requires AllPlain(path)
    ensures Cut(Key(path), '/') == [""] + path + [""]
  {
    KeyIsJoin(path);
    CutJoin([""] + path + [""], '/');
  }

  lemma SlashKeyIs(front: Path)
    ensures Key(front + ["/"]) == Key(front) + "/" + "/"
  {
    assert (front + ["/"])[..|front|] == front;
  }

  lemma JoinBlank(ps: seq<string>, all: seq<string>)
    requires ps != [] && all == ps + [""]
    ensures Join(all, '/') == Join(ps, '/') + "/"
  {
    JoinSnoc(ps, "", '/');
  }

  lemma BlankEndsFree(front: Path, ends: seq<string>)
    requires AllPlain(front) && forall i | 0 <= i < |ends| :: ends[i] == ""
    ensures forall i | 0 <= i < |[""] + front + ends| :: Free(([""] + front + ends)[i], '/')
  {
    var ps := [""] + front + ends;
    forall i | 0 <= i < |ps|
      ensures Free(ps[i], '/')
    {
      if 1 <= i <= |front| {
        assert ps[i] == front[i - 1];
      } else {
        assert ps[i] == "";
      }
    }
  }

  lemma SlashKeyCut(front: Path, ps: seq<string>)
    requires AllPlain(front) && ps == [""] + front + ["", "", ""]
    ensures Cut(Key(front + ["/"]), '/') == ps
  {
    var a := [""] + front + [""];
    var b := [""] + front + ["", ""];
    SlashKeyIs(front);
    KeyIsJoin(front);
    JoinBlank(a, b);
    JoinBlank(b, ps);
    BlankEndsFree(front, ["", "", ""]);
    CutJoin(ps, '/');
  }

  lemma PlainKeyInjective(p: Path, q: Path)
    requires AllPlain(p) && WellShaped(q) && Key(p) == Key(q)
    ensures p == q
  {
    KeyCut(p);
    if AllPlain(q) {
      KeyCut(q);
      assert p == ([""] + p + [""])[1..|p| + 1] && q == ([""] + q + [""])[1..|q| + 1];
    } else {
      var front := q[..|q| - 1];
      assert q == front + ["/"];
      SlashKeyCut(front, [""] + front + ["", "", ""]);
      NotPlain(p, front);
    }
  }

  /** Among the paths that names can have, only one has a given key. */
  lemma KeyInjective(p: Path, q: Path)
    requires WellShaped(p) && WellShaped(q) && Key(p) == Key(q)
    ensures p == q
  {
    if AllPlain(p) {
      PlainKeyInjective(p, q);
    } else if AllPlain(q) {
      PlainKeyInjective(q, p);
    } else {
      var a, b := p[..|p| - 1], q[..|q| - 1];
      assert p == a + ["/"] && q == b + ["/"];
      SlashKeysEqual(a, b);
      PlainKeyInjective(a, b);
    }
  }

  lemma SlashKeysEqual(a: Path, b: Path)
    requires Key(a + ["/"]) == Key(b + ["/"])
    ensures Key(a) == Key(b)
  {
    SlashKeyIs(a);
    SlashKeyIs(b);
    SameFronts(Key(a), Key(b));
  }

  lemma SameFronts(x: string, y: string)
    requires x + "/" + "/" == y + "/" + "/"
    ensures x == y
  {
    assert x == (x + "/" + "/")[..|x|] && y == (y + "/" + "/")[..|y|];
    assert |x + "/" + "/"| == |y + "/" + "/"|;
  }

  lemma NotPlain(p: Path, front: Path)
    requires [""] + p + [""] == [""] + front + ["", "", ""]
    ensures !AllPlain(p)
  {
    assert p[|front|] == ([""] + p + [""])[|front| + 1];
  }

  // ---------- walking the index ----------

  /** A path that a client can follow from "/" by asking for the children at each key. */
  predicate Walk(ix: Index, path: Path) {
    forall i | 0 <= i < |path| :: path[i] in Children(ix, Key(path[..i]))
  }

  predicate Prefixes(path: Path, names: set<string>) {
    exists n | n in names :: path <= Components(n)
  }

  /** Walking the index of some names enumerates exactly the prefixes of their component paths. */
  lemma {:induction false} WalkIsPrefix(names: set<string>, path: Path)
    ensures Walk(IndexOf(names), path) <==> path == [] || Prefixes(path, names)
    decreases |path|
  {
    if path != [] {
      var front, last := path[..|path| - 1], path[|path| - 1];
      WalkIsPrefix(names, front);
      WalkSnoc(IndexOf(names), front, last);
      assert front + [last] == path;
      IndexLinked(names, Key(front), last);
      if Walk(IndexOf(names), path) {
        var n :| n in names && Edge(Components(n), Key(front), last);
        ExtendPrefix(names, front, n, last);
      }
      if Prefixes(path, names) {
        var n :| n in names && path <= Components(n);
        PrefixLinks(names, front, last, n);
      }
    }
  }

  lemma {:induction false} WalkSnoc(ix: Index, front: Path, last: string)
    ensures Walk(ix, front + [last]) <==> Walk(ix, front) && last in Children(ix, Key(front))
  {
    var path := front + [last];
    assert forall i | 0 <= i < |front| :: path[i] == front[i] && path[..i] == front[..i];
    assert path[..|front|] == front && path[|front|] == last;
  }

  lemma PrefixLinks(names: set<string>, front: Path, last: string, n: string)
    requires n in names && front + [last] <= Components(n)
    ensures Prefixes(front, names) && Linked(names, Key(front), last)
  {
    assert front <= front + [last];
    assert Components(n)[..|front|] == front && Components(n)[|front|] == last;
    assert EdgeAt(Components(n), |front|, Key(front), last);
  }

  lemma ShapedPrefix(front: Path, n: string)
    requires front <= Components(n)
    ensures WellShaped(front)
  {
    ComponentsShape(n);
    assert forall k | 0 <= k < |front| :: front[k] == Components(n)[k];
  }

  lemma {:induction false} ExtendPrefix(names: set<string>, front: Path, n: string, last: string)
    requires front == [] || Prefixes(front, names)
    requires n in names && Edge(Components(n), Key(front), last)
    ensures front + [last] <= Components(n)
  {
    var p := Components(n);
    var i :| 0 <= i < |p| && EdgeAt(p, i, Key(front), last);
    ComponentsShape(n);
    if front != [] {
      var m :| m in names && front <= Components(m);
      ShapedPrefix(front, m);
    }
    ProperPrefixPlain(p, i);
    PrefixSnoc(p, i);
    KeyInjective(p[..i], front);
  }

  lemma PrefixSnoc(p: Path, i: nat)
    requires i < |p|
    ensures p[..i] + [p[i]] <= p
  {
  }

  lemma ProperPrefixPlain(p: Path, i: nat)
    requires WellShaped(p) && i < |p|
    ensures AllPlain(p[..i])
  {
  }

  // ---------- the components of ordinary names ----------

  predicate Ordinary(cs: Path) {
    cs != [] && AllPlain(cs) && forall i | 0 <= i < |cs| :: NoOuterSpace(cs[i])
  }

  /** The name "/c1/c2/.../cn". */
  function NameOf(cs: Path): string {
    Join([""] + cs, '/')
  }

  lemma {:induction false} TokensOfSlashed(cs: Path, ends: seq<string>)
    requires Ordinary(cs) && forall i | 0 <= i < |ends| :: ends[i] == ""
    ensures ConverterTokens(Join([""] + cs + ends, '/'), '/') == DropLastEmpty([""] + cs + ends, '/')
  {
    var ps := [""] + cs + ends;
    assert forall i | 0 <= i < |ps| :: Free(ps[i], '/') && NoOuterSpace(ps[i]);
    ConverterTokensOfPieces(ps, '/');
  }

  lemma NonEmptyBlankFirst(ps: seq<string>)
    ensures NonEmpty([""] + ps) == NonEmpty(ps)
  {
    NonEmptyAppend([""], ps);
  }

  lemma OrdinaryTokens(cs: Path, rest: seq<string>)
    requires Ordinary(cs)
    ensures NonEmpty([""] + cs + rest) == cs + NonEmpty(rest)
  {
    NonEmptyIsIdentity(cs);
    NonEmptyAppend(cs, rest);
    NonEmptyBlankFirst(cs + rest);
    Regroup([""], cs, rest);
  }

  /** A name of plain components without outer spaces gives them back; ... */
  lemma ComponentsOfName(cs: Path)
    requires Ordinary(cs)
    ensures Components(NameOf(cs)) == cs
  {
    TokensOfSlashed(cs, []);
    assert [""] + cs + [] == [""] + cs;
    OrdinaryTokens(cs, []);
    assert DropLastEmpty([""] + cs, '/') == [""] + cs;
  }

  /** ... a slash added at the end changes nothing; ... */
  lemma TrailingSlash(cs: Path)
    requires Ordinary(cs)
    ensures Components(NameOf(cs) + "/") == cs
  {
    TokensOfSlashed(cs, [""]);
    JoinSnoc([""] + cs, "", '/');
    assert NameOf(cs) + "/" == NameOf(cs) + ['/'] + "";
    OrdinaryTokens(cs, []);
    assert Last([""] + cs) != "";
    assert Front([""] + cs + [""]) == [""] + cs == [""] + cs + [];
  }

  /** ... two slashes add a component "/" that no part of the name spells. */
  lemma TrailingDoubleSlash(cs: Path)
    requires Ordinary(cs)
    ensures Components(NameOf(cs) + "//") == cs + ["/"]
  {
    var ps := [""] + cs + ["", ""];
    TokensOfSlashed(cs, ["", ""]);
    JoinSnoc([""] + cs, "", '/');
    JoinSnoc([""] + cs + [""], "", '/');
    assert [""] + cs + [""] + [""] == ps;
    assert NameOf(cs) + "//" == (NameOf(cs) + ['/'] + "") + ['/'] + "";
    assert DropLastEmpty(ps, '/') == [""] + cs + ["", "/"];
    OrdinaryTokens(cs, ["", "/"]);
    assert ["", "/"][1..] == ["/"] && ["/"][1..] == [];
    assert NonEmpty(["/"]) == ["/"] + NonEmpty([]);
  }
}
