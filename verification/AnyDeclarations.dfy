/**
 A call to a service with any declared parameters, names repeated or not: when it is refused, when
 it throws, and which argument each parameter ends with.
 */
module AnyDeclarations {
  import opened Wrappers
  import opened Tokenizer
  import opened Escape
  import opened Services
  import opened ArgumentPassing

  /** Argument i goes to a parameter and does not decode. */
  predicate Unreadable(info: ParamMap, tokens: seq<string>, i: nat)
    requires i < |tokens|
  {
    SlotOf(info, i).Some? && tokens[i] == "%"
  }

  predicate SomeUnreadable(info: ParamMap, tokens: seq<string>, n: nat)
    requires n <= |tokens|
  {
    exists i: nat | i < n :: Unreadable(info, tokens, i)
  }

  /** Among the first n arguments is the one that goes to parameter k. */
  predicate Receives(info: ParamMap, k: string, n: nat) {
    k in info && 0 <= info[k].paramIndex < n && SlotOf(info, info[k].paramIndex) == Some(k)
  }

  predicate Named(info: ParamMap) {
    forall k | k in info :: info[k].paramName == k
  }

  lemma {:induction false} DeclaredIsNamed(ds: seq<Declaration>)
    ensures Named(DeclareAll(ds))
    decreases |ds|
  {
    if ds != [] {
      DeclaredIsNamed(ds[..|ds| - 1]);
    }
  }

  /** One argument: it throws only if it goes somewhere and does not decode. */
  lemma OneThrowsIff(info: ParamMap, p: ParamMap, tokens: seq<string>, i: nat)
    requires i < |tokens|
    ensures FillOne(info, p, i, tokens[i]).Threw? <==> Unreadable(info, tokens, i)
  {
  }

  lemma {:induction false} FillThrewIff(info: ParamMap, before: ParamMap, tokens: seq<string>, n: nat)
    requires n <= |tokens|
    ensures Fill(info, before, tokens, n).Threw? <==> SomeUnreadable(info, tokens, n)
    decreases n
  {
    if n > 0 {
      FillThrewIff(info, before, tokens, n - 1);
      match Fill(info, before, tokens, n - 1)
      case Threw(_) =>
        var i: nat :| i < n - 1 && Unreadable(info, tokens, i);
        assert SomeUnreadable(info, tokens, n);
      case Filled(p) =>
        FillMore(info, before, tokens, n - 1, p);
        OneThrowsIff(info, p, tokens, n - 1);
    }
  }

  /** What parameter k holds after its argument, if it is among the first n. */
  predicate HoldsArgument(info: ParamMap, before: ParamMap, tokens: seq<string>, n: nat, after: ParamMap, k: string)
    requires n <= |tokens|
  {
    if Receives(info, k, n) then
      var text := Decode(tokens[info[k].paramIndex]);
      text.Success? && k in after && after[k] == Store(Entry(before, k), info[k].paramType, text.value)
    else
      (k in after <==> k in before) && Entry(after, k) == Entry(before, k)
  }

  lemma {:induction false} FillHolds(info: ParamMap, before: ParamMap, tokens: seq<string>, n: nat, k: string)
    requires Named(info) && n <= |tokens| && Fill(info, before, tokens, n).Filled?
    ensures HoldsArgument(info, before, tokens, n, Fill(info, before, tokens, n).params, k)
    decreases n
  {
    if n > 0 {
      var p := Fill(info, before, tokens, n - 1).params;
      FillHolds(info, before, tokens, n - 1, k);
      FillMore(info, before, tokens, n - 1, p);
    }
  }

  /** The call is refused exactly for its count; it throws exactly if some argument that goes to a
      parameter does not decode; otherwise it executes. Then a parameter that no argument goes to
      is as before, and any other holds its argument. */
  lemma CallExact(ds: seq<Declaration>, before: ParamMap, text: string)
    ensures var info, tokens := DeclareAll(ds), Tokens(text, ',');
            var (result, after) := Outcome(Some(info), before, text);
            && (result == WrongCount <==> |info| != |tokens|)
            && (result == DecodeThrew <==> |info| == |tokens| && SomeUnreadable(info, tokens, |tokens|))
            && (result == Executed <==> |info| == |tokens| && !SomeUnreadable(info, tokens, |tokens|))
            && (result == Executed ==> forall k :: HoldsArgument(info, before, tokens, |tokens|, after, k))
  {
    var info, tokens := DeclareAll(ds), Tokens(text, ',');
    FillThrewIff(info, before, tokens, |tokens|);
    DeclaredIsNamed(ds);
    forall k | Fill(info, before, tokens, |tokens|).Filled?
      ensures HoldsArgument(info, before, tokens, |tokens|, Fill(info, before, tokens, |tokens|).params, k)
    {
      FillHolds(info, before, tokens, |tokens|, k);
    }
  }
}
