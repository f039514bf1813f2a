/**
 Arguments end to end: encoded with encodeData, joined by commas, split, decoded and stored by
 ControlObject::call. The i-th argument reaches the i-th declared parameter.
 */
module ArgumentPassing {
  import opened Wrappers
  import opened Text
  import opened Tokenizer
  import opened Escape
  import opened OrderedKeys
  import opened Services

  function EncodeAll(args: seq<string>): (r: seq<string>)
    ensures |r| == |args| && forall i | 0 <= i < |args| :: r[i] == Encode(args[i])
  {
    if args == [] then [] else [Encode(args[0])] + EncodeAll(args[1..])
  }

  /** The params text of a service request. */
  function ArgumentText(args: seq<string>): string {
    Join(EncodeAll(args), ',')
  }

  // ---------- encoding and spaces ----------

  lemma {:induction false} EncodeAppend(a: string, b: string)
    ensures Encode(a + b) == Encode(a) + Encode(b)
    decreases |a|
  {
    if a == "" {
      assert a + b == b;
    } else {
      EncodeAppend(a[1..], b);
      assert (a + b)[1..] == a[1..] + b;
      Regroup(EncodeChar(a[0]), Encode(a[1..]), Encode(b));
    }
  }

  lemma {:induction false} EncodeTrimLeft(a: string)
    ensures TrimLeft(Encode(a)) == Encode(TrimLeft(a))
    decreases |a|
  {
    if a != "" {
      var e := Encode(a);
      assert e[0] == EncodeChar(a[0])[0];
      if a[0] == ' ' {
        EncodeTrimLeft(a[1..]);
        assert e[1..] == Encode(a[1..]);
      }
    }
  }

  lemma EncodeLast(front: string, c: char)
    ensures Encode(front + [c]) == Encode(front) + EncodeChar(c)
  {
    EncodeAppend(front, [c]);
    assert [c][1..] == "";
    assert Encode([c]) == EncodeChar(c) + Encode("");
  }

  lemma {:induction false} EncodeTrimRight(a: string)
    ensures TrimRight(Encode(a)) == Encode(TrimRight(a))
    decreases |a|
  {
    if a != "" {
      var front, c := a[..|a| - 1], a[|a| - 1];
      assert a == front + [c];
      EncodeLast(front, c);
      if c == ' ' {
        EncodeTrimRight(front);
      }
    }
  }

  lemma EncodeTrim(a: string)
    ensures Trim(Encode(a)) == Encode(Trim(a))
  {
    EncodeTrimLeft(a);
    EncodeTrimRight(TrimLeft(a));
  }

  /** What trimming leaves of argument i of n. */
  function Trimmed(args: seq<string>, i: nat): string
    requires i < |args|
  {
    if i == |args| - 1 then Trim(args[i]) else TrimLeft(args[i])
  }

  /** The tokens that call sees: the encoded arguments, trimmed. */
  lemma TokensOfArguments(args: seq<string>)
    requires ArgumentText(args) != ""
    ensures var ts := Tokens(ArgumentText(args), ',');
            |ts| == |args| && forall i | 0 <= i < |args| :: ts[i] == Encode(Trimmed(args, i))
  {
    var es := EncodeAll(args);
    forall i | 0 <= i < |es|
      ensures Free(es[i], ',')
    {
      EncodedIsFree(args[i]);
    }
    assert es != [];
    CutJoin(es, ',');
    forall i | 0 <= i < |args|
      ensures Polish(es)[i] == Encode(Trimmed(args, i))
    {
      PolishAt(es, i);
      EncodeTrim(args[i]);
      EncodeTrimLeft(args[i]);
    }
  }

  // ---------- which arguments survive ----------

  /** An argument that escaping does not garble and decoding does not choke on. */
  predicate Intact(a: string) {
    !Holds(a, COLON) && !Holds(a, COMMA) && a != "%"
  }

  /** No argument starts with a space, the last does not end in one, each is intact, and the
      list is not the empty text alone, which reads as no argument at all. */
  predicate Clean(args: seq<string>) {
    && args != [""]
    && forall i | 0 <= i < |args| :: Intact(args[i]) && Trimmed(args, i) == args[i]
  }

  /** A trimmed encoded text decodes to the original exactly if nothing was trimmed and the
      text is intact. */
  lemma {:induction false} TrimmedRoundTrip(a: string, t: string)
    requires |t| < |a| || t == a
    ensures Decode(Encode(t)) == Success(a) <==> t == a && Intact(a)
  {
    RoundTrip(t);
    RoundTripLength(t);
  }

  lemma TrimShrinks(a: string)
    ensures |TrimLeft(a)| < |a| || TrimLeft(a) == a
    ensures |Trim(a)| < |a| || Trim(a) == a
  {
    TrimLeftDrops(a);
    TrimRightDrops(TrimLeft(a));
  }

  // ---------- filling the declared parameters ----------

  lemma {:induction false} OtherIndex(ds: seq<Declaration>, i: nat, j: string)
    requires DistinctNames(ds) && i < |ds| && j in DeclareAll(ds) && j != ds[i].0
    ensures DeclareAll(ds)[j].paramIndex != i
  {
    DistinctDeclarations(ds);
    DeclaredNames(ds, j);
  }

  lemma {:induction false} SlotOfDeclared(ds: seq<Declaration>, i: nat)
    requires DistinctNames(ds) && i < |ds|
    ensures SlotOf(DeclareAll(ds), i) == Some(ds[i].0)
  {
    var ps, k := DeclareAll(ds), ds[i].0;
    DistinctDeclarations(ds);
    forall j | j in Ordered(ps.Keys) && j != k
      ensures ps[j].paramIndex != ps[k].paramIndex
    {
      OtherIndex(ds, i, j);
    }
    SlotUnique(Ordered(ps.Keys), ps, k);
  }

  predicate Undeclared(ds: seq<Declaration>, k: string) {
    forall i | 0 <= i < |ds| :: ds[i].0 != k
  }

  /** The parameters after the first n texts have been stored in declaration order. */
  function StoredAll(ds: seq<Declaration>, params: ParamMap, texts: seq<string>, n: nat): ParamMap
    requires n <= |ds| && n <= |texts|
  {
    if n == 0 then params
    else
      var p := StoredAll(ds, params, texts, n - 1);
      p[ds[n - 1].0 := Store(Entry(p, ds[n - 1].0), ds[n - 1].1, texts[n - 1])]
  }

  lemma {:induction false} FillOneStores(ds: seq<Declaration>, params: ParamMap, i: nat, token: string, text: string)
    requires DistinctNames(ds) && i < |ds| && Decode(token) == Success(text)
    ensures FillOne(DeclareAll(ds), params, i, token) ==
            Filled(params[ds[i].0 := Store(Entry(params, ds[i].0), ds[i].1, text)])
  {
    DistinctDeclarations(ds);
    SlotOfDeclared(ds, i);
  }

  lemma FillMore(info: ParamMap, params: ParamMap, tokens: seq<string>, n: nat, p: ParamMap)
    requires n < |tokens| && Fill(info, params, tokens, n) == Filled(p)
    ensures Fill(info, params, tokens, n + 1) == FillOne(info, p, n, tokens[n])
  {
  }

  lemma FillStoresMore(ds: seq<Declaration>, params: ParamMap, tokens: seq<string>, text: string, i: nat, p: ParamMap)
    requires DistinctNames(ds) && i < |ds| == |tokens| && Decode(tokens[i]) == Success(text)
    requires Fill(DeclareAll(ds), params, tokens, i) == Filled(p)
    ensures Fill(DeclareAll(ds), params, tokens, i + 1) ==
            Filled(p[ds[i].0 := Store(Entry(p, ds[i].0), ds[i].1, text)])
  {
    FillOneStores(ds, p, i, tokens[i], text);
    FillMore(DeclareAll(ds), params, tokens, i, p);
  }

  lemma {:induction false} FillStores(ds: seq<Declaration>, params: ParamMap, tokens: seq<string>, texts: seq<string>,
                                      n: nat)
    requires DistinctNames(ds) && |ds| == |tokens| && n <= |ds| && n <= |texts|
    requires forall i | 0 <= i < n :: Decode(tokens[i]) == Success(texts[i])
    ensures Fill(DeclareAll(ds), params, tokens, n) == Filled(StoredAll(ds, params, texts, n))
    decreases n
  {
    if n > 0 {
      var i := n - 1;
      var p := StoredAll(ds, params, texts, i);
      FillStores(ds, params, tokens, texts, i);
      assert Decode(tokens[i]) == Success(texts[i]);
      FillStoresMore(ds, params, tokens, texts[i], i, p);
    }
  }

  lemma {:induction false} StoredOther(ds: seq<Declaration>, params: ParamMap, texts: seq<string>, n: nat, k: string)
    requires n <= |ds| && n <= |texts| && forall i | 0 <= i < n :: ds[i].0 != k
    ensures var p := StoredAll(ds, params, texts, n);
            (k in p <==> k in params) && Entry(p, k) == Entry(params, k)
    decreases n
  {
    if n > 0 {
      StoredOther(ds, params, texts, n - 1, k);
    }
  }

  lemma {:induction false} StoredAt(ds: seq<Declaration>, params: ParamMap, texts: seq<string>, n: nat, i: nat)
    requires DistinctNames(ds) && i < n <= |ds| && n <= |texts|
    ensures var p := StoredAll(ds, params, texts, n);
            ds[i].0 in p && p[ds[i].0] == Store(Entry(params, ds[i].0), ds[i].1, texts[i])
    decreases n
  {
    if i == n - 1 {
      StoredOther(ds, params, texts, n - 1, ds[i].0);
    } else {
      StoredAt(ds, params, texts, n - 1, i);
    }
  }

  // ---------- the theorems ----------

  /** The service holds argument i, converted, in its i-th declared parameter, and every
      parameter that was not declared is as before. */
  ghost predicate Holding(ds: seq<Declaration>, before: ParamMap, args: seq<string>, after: ParamMap)
    requires |ds| == |args|
  {
    && (forall i | 0 <= i < |ds| ::
          ds[i].0 in after && after[ds[i].0] == Store(Entry(before, ds[i].0), ds[i].1, args[i]))
    && (forall k | Undeclared(ds, k) :: (k in after <==> k in before) && Entry(after, k) == Entry(before, k))
  }

  lemma StoredHolds(ds: seq<Declaration>, before: ParamMap, args: seq<string>)
    requires DistinctNames(ds) && |ds| == |args|
    ensures Holding(ds, before, args, StoredAll(ds, before, args, |args|))
  {
    var after := StoredAll(ds, before, args, |args|);
    forall i | 0 <= i < |ds|
      ensures ds[i].0 in after && after[ds[i].0] == Store(Entry(before, ds[i].0), ds[i].1, args[i])
    {
      StoredAt(ds, before, args, |args|, i);
    }
    forall k | Undeclared(ds, k)
      ensures (k in after <==> k in before) && Entry(after, k) == Entry(before, k)
    {
      StoredOther(ds, before, args, |args|, k);
    }
  }

  lemma JoinHasSeparator(ps: seq<string>, sep: char)
    requires |ps| > 1
    ensures |ps[0]| < |Join(ps, sep)| && Join(ps, sep)[|ps[0]|] == sep
  {
    assert Join(ps, sep) == ps[0] + [sep] + Join(ps[1..], sep);
  }

  /** Joined arguments that are all spaces come from a single argument of spaces. */
  lemma TextOfSpaces(args: seq<string>)
    requires AllSpaces(ArgumentText(args)) && args != []
    ensures |args| == 1 && Trimmed(args, 0) != args[0]
  {
    var es := EncodeAll(args);
    if |es| > 1 {
      JoinHasSeparator(es, ',');
    }
    assert es[0] == ArgumentText(args);
    assert es[0][0] == EncodeChar(args[0][0])[0];
    TrimOuter(args[0]);
  }

  lemma TextNotSpaces(args: seq<string>)
    requires Clean(args)
    ensures !AllSpaces(ArgumentText(args))
  {
    if AllSpaces(ArgumentText(args)) && args != [] {
      TextOfSpaces(args);
    }
  }

  /** Clean arguments for a service with as many distinctly named parameters: the call stores
      each argument, converted, in the parameter of its position and reports execution. */
  lemma {:induction false} ArgumentsArrive(ds: seq<Declaration>, before: ParamMap, args: seq<string>)
    requires DistinctNames(ds) && |ds| == |args| && Clean(args)
    ensures !AllSpaces(ArgumentText(args))
    ensures var (result, after) := Outcome(Some(DeclareAll(ds)), before, ArgumentText(args));
            result == Executed && Holding(ds, before, args, after)
  {
    TextNotSpaces(args);
    DistinctDeclarations(ds);
    CleanTokens(args);
    FillStores(ds, before, Tokens(ArgumentText(args), ','), args, |args|);
    StoredHolds(ds, before, args);
  }

  /** Of a parameter the service had before the call, only the value of the declared type changes;
      one it did not have starts blank. */
  lemma {:induction false} OneFieldChanges(ds: seq<Declaration>, before: ParamMap, args: seq<string>, i: nat)
    requires DistinctNames(ds) && |ds| == |args| && Clean(args) && i < |ds|
    ensures var (name, t) := ds[i];
            var (_, after) := Outcome(Some(DeclareAll(ds)), before, ArgumentText(args));
            && name in after
            && (name in before ==> OnlyValueChanged(before[name], t, after[name]))
            && (name !in before ==> OnlyValueChanged(BLANK, t, after[name]))
  {
    ArgumentsArrive(ds, before, args);
    StoreKeeps(Entry(before, ds[i].0), ds[i].1, args[i]);
  }

  /** The tokens of clean arguments decode to them. */
  lemma CleanTokens(args: seq<string>)
    requires Clean(args)
    ensures var ts := Tokens(ArgumentText(args), ',');
            |ts| == |args| && forall i | 0 <= i < |args| :: Decode(ts[i]) == Success(args[i])
  {
    if args != [] {
      TokensOfArguments(args);
      var ts := Tokens(ArgumentText(args), ',');
      forall i | 0 <= i < |args|
        ensures Decode(ts[i]) == Success(args[i])
      {
        RoundTrip(args[i]);
      }
    }
  }

  /** The call refuses the arguments for their number exactly if it is not that of the declared
      parameters, the single empty text counting as no argument; then nothing has changed. */
  lemma WrongCountIff(info: ParamMap, before: ParamMap, args: seq<string>)
    ensures var (result, after) := Outcome(Some(info), before, ArgumentText(args));
            && (result == WrongCount <==> |info| != if args == [""] then 0 else |args|)
            && (result == WrongCount ==> after == before)
  {
    if ArgumentText(args) != "" {
      TokensOfArguments(args);
    }
  }

  /** The call throws exactly if some token is "%" alone; then nothing runs, and the arguments before
      the first such token have been stored. */
  lemma ThrowsIff(ds: seq<Declaration>, before: ParamMap, text: string)
    requires DistinctNames(ds) && |ds| == |Tokens(text, ',')|
    ensures var tokens := Tokens(text, ',');
            var (result, after) := Outcome(Some(DeclareAll(ds)), before, text);
            && (result == DecodeThrew <==> "%" in tokens)
            && (result == Executed <==> "%" !in tokens)
            && forall n: nat | FirstPercent(tokens, n) ::
                 after == StoredAll(ds, before, Decoded(tokens[..n]), n)
  {
    var tokens := Tokens(text, ',');
    DistinctDeclarations(ds);
    if "%" in tokens {
      var first := PercentAt(tokens);
      FillThrows(ds, before, tokens, first);
      forall n: nat | FirstPercent(tokens, n)
        ensures Outcome(Some(DeclareAll(ds)), before, text) ==
                (DecodeThrew, StoredAll(ds, before, Decoded(tokens[..n]), n))
      {
        FillThrows(ds, before, tokens, n);
      }
    } else {
      FillStores(ds, before, tokens, Decoded(tokens), |tokens|);
    }
  }

  predicate FirstPercent(tokens: seq<string>, n: nat) {
    n < |tokens| && tokens[n] == "%" && forall i | 0 <= i < n :: Decode(tokens[i]).Success?
  }

  lemma {:induction false} PercentAt(tokens: seq<string>) returns (n: nat)
    requires "%" in tokens
    ensures FirstPercent(tokens, n)
    decreases |tokens|
  {
    if tokens[0] == "%" {
      n := 0;
    } else {
      n := PercentAt(tokens[1..]);
      n := n + 1;
      assert forall i | 1 <= i < n :: tokens[i] == tokens[1..][i - 1];
    }
  }

  lemma FillThrows(ds: seq<Declaration>, before: ParamMap, tokens: seq<string>, n: nat)
    requires DistinctNames(ds) && |ds| == |tokens| && FirstPercent(tokens, n)
    ensures Fill(DeclareAll(ds), before, tokens, |tokens|) == Threw(StoredAll(ds, before, Decoded(tokens[..n]), n))
  {
    var texts := Decoded(tokens[..n]);
    FillStores(ds, before, tokens, texts, n);
    FillMore(DeclareAll(ds), before, tokens, n, StoredAll(ds, before, texts, n));
    SlotOfDeclared(ds, n);
    ThrewStays(DeclareAll(ds), before, tokens, n + 1, |tokens|);
  }

  predicate AllStrings(ds: seq<Declaration>) {
    forall i | 0 <= i < |ds| :: ds[i].1 == StringParam
  }

  /** For string parameters the condition is exact: the call stores precisely the arguments
      sent if and only if they are clean. */
  lemma {:induction false} StringsArriveIffClean(ds: seq<Declaration>, before: ParamMap, args: seq<string>)
    requires DistinctNames(ds) && AllStrings(ds) && |ds| == |args| && !AllSpaces(ArgumentText(args))
    ensures var (result, after) := Outcome(Some(DeclareAll(ds)), before, ArgumentText(args));
            result == Executed && Holding(ds, before, args, after) <==> Clean(args)
  {
    if Clean(args) {
      ArgumentsArrive(ds, before, args);
    } else {
      var (result, after) := Outcome(Some(DeclareAll(ds)), before, ArgumentText(args));
      if result == Executed && Holding(ds, before, args, after) {
        ArrivedMeansClean(ds, before, args, after);
      }
    }
  }

  lemma {:induction false} ArrivedMeansClean(ds: seq<Declaration>, before: ParamMap, args: seq<string>, after: ParamMap)
    requires DistinctNames(ds) && AllStrings(ds) && |ds| == |args|
    requires Outcome(Some(DeclareAll(ds)), before, ArgumentText(args)) == (Executed, after)
    requires Holding(ds, before, args, after)
    ensures Clean(args)
  {
    DistinctDeclarations(ds);
    if args != [] {
      TokensOfArguments(args);
      var ts := Tokens(ArgumentText(args), ',');
      ExecutedDecodes(ds, before, ts, |ts|);
      forall i | 0 <= i < |args|
        ensures Intact(args[i]) && Trimmed(args, i) == args[i]
      {
        ArrivedIsClean(ds, before, args, after, ts, i);
      }
    }
  }

  /** If filling did not throw, every token decodes. */
  lemma {:induction false} ExecutedDecodes(ds: seq<Declaration>, before: ParamMap, tokens: seq<string>, n: nat)
    requires DistinctNames(ds) && |ds| == |tokens| && n <= |ds|
    requires Fill(DeclareAll(ds), before, tokens, n).Filled?
    ensures forall i | 0 <= i < n :: Decode(tokens[i]).Success?
    decreases n
  {
    if n > 0 {
      DistinctDeclarations(ds);
      SlotOfDeclared(ds, n - 1);
      ExecutedDecodes(ds, before, tokens, n - 1);
    }
  }

  function Decoded(tokens: seq<string>): (r: seq<string>)
    requires forall i | 0 <= i < |tokens| :: Decode(tokens[i]).Success?
    ensures |r| == |tokens| && forall i | 0 <= i < |tokens| :: Decode(tokens[i]) == Success(r[i])
  {
    if tokens == [] then [] else [Decode(tokens[0]).value] + Decoded(tokens[1..])
  }

  lemma {:induction false} ArrivedIsClean(ds: seq<Declaration>, before: ParamMap, args: seq<string>, after: ParamMap,
                                          ts: seq<string>, i: nat)
    requires DistinctNames(ds) && AllStrings(ds) && |ds| == |args| == |ts| && i < |args|
    requires forall j | 0 <= j < |ts| :: ts[j] == Encode(Trimmed(args, j)) && Decode(ts[j]).Success?
    requires Fill(DeclareAll(ds), before, ts, |ts|) == Filled(after) && Holding(ds, before, args, after)
    ensures Intact(args[i]) && Trimmed(args, i) == args[i]
  {
    var texts := Decoded(ts);
    FillStores(ds, before, ts, texts, |ts|);
    StoredAt(ds, before, texts, |ts|, i);
    assert after[ds[i].0].stringValue == texts[i] == args[i];
    TrimShrinks(args[i]);
    TrimmedRoundTrip(args[i], Trimmed(args, i));
  }
}
