/**
 * Merging the client's `anthropic-beta` list into the outgoing one: the base keeps its
 * order, and only allowed, client-sent, new tokens are appended. The long-context beta is
 * held back from a named model that does not support it.
 */
module AnthropicHeaders {
  import opened Options
  import opened Text

  const CONTEXT_1M_BETA := "context-1m-2025-08-07"

  const CONTEXT_1M_SUPPORTED_MODELS: seq<string> := [
    "claude-fable-5", "claude-sonnet-5", "claude-sonnet-4-6",
    "claude-opus-4-8", "claude-opus-4-7", "claude-opus-4-6"]

  // ----------------------------------------------------------------- comma lists

  /** The non-blank pieces, trimmed. */
  function Clean(pieces: seq<string>): seq<string> {
    if pieces == [] then []
    else (if Trim(pieces[0]) != "" then [Trim(pieces[0])] else []) + Clean(pieces[1..])
  }

  function Tokens(s: string): seq<string> {
    Clean(Split(s, ','))
  }

  predicate IsToken(t: string) {
    t != "" && Trimmed(t) && ',' !in t
  }

  predicate AllTokens(ts: seq<string>) {
    forall t | t in ts :: IsToken(t)
  }

  lemma {:induction false} CleanConcat(a: seq<string>, b: seq<string>)
    ensures Clean(a + b) == Clean(a) + Clean(b)
  {
    if a == [] {
      assert a + b == b;
    } else {
      assert (a + b)[1..] == a[1..] + b;
      CleanConcat(a[1..], b);
    }
  }

  lemma {:induction false} CleanTokens(pieces: seq<string>)
    requires forall p | p in pieces :: ',' !in p
    ensures AllTokens(Clean(pieces))
  {
    if pieces != [] {
      assert pieces[0] in pieces;
      TrimIdempotent(pieces[0]);
      TrimWithin(pieces[0]);
      CleanTokens(pieces[1..]);
    }
  }

  lemma {:induction false} CleanFixes(ts: seq<string>)
    requires AllTokens(ts)
    ensures Clean(ts) == ts
  {
    if ts != [] {
      assert ts[0] in ts;
      TrimFixes(ts[0]);
      CleanFixes(ts[1..]);
    }
  }

  lemma TokensAreTokens(s: string)
    ensures AllTokens(Tokens(s))
  {
    SplitPieces(s, ',');
    CleanTokens(Split(s, ','));
  }

  lemma TokensConcat(a: string, b: string)
    ensures Tokens(a + "," + b) == Tokens(a) + Tokens(b)
  {
    SplitConcat(a, ',', b);
    CleanConcat(Split(a, ','), Split(b, ','));
  }

  /** A list of tokens is what its joined form reads back as. */
  lemma TokensOfJoin(ts: seq<string>)
    requires AllTokens(ts)
    ensures Tokens(Join(ts, ",")) == ts
  {
    if ts == [] {
      assert Split("", ',') == [""] && [""][1..] == [];
    } else {
      SplitJoin(ts, ',');
      CleanFixes(ts);
    }
  }

  lemma BlankHasNoTokens(s: string)
    requires Trim(s) == ""
    ensures Tokens(s) == []
  {
    var before, after := TrimParts(s);
    forall c | c in s ensures IsSpace(c) {
      assert s == before + after;
      assert c in before || c in after;
    }
    assert !IsSpace(',');
    SplitWhole(s, ',');
    assert [s][1..] == [];
    assert Clean([s]) == [] + Clean([s][1..]);
  }

  // -------------------------------------------------------------------- the model gate

  /** The id without a final `-` and eight digits. */
  function WithoutDate(id: string): string {
    var n := |id| - 9;
    if n >= 0 && id[n] == '-' && (forall i | n < i < |id| :: IsDigit(id[i])) then id[..n] else id
  }

  predicate SupportsContext1m(model: string) {
    var id := WithoutDate(Lower(Trim(model)));
    exists s | s in CONTEXT_1M_SUPPORTED_MODELS :: id == s || StartsWith(id, s + "-")
  }

  /** The betas that may be forwarded, lower-cased; the long-context one only where the model takes it. */
  function AllowSet(allow: seq<string>, model: Option<string>): set<string> {
    set a | a in allow &&
        (Lower(a) == CONTEXT_1M_BETA && model.Some? && model.value != "" ==> SupportsContext1m(model.value))
        :: Lower(a)
  }

  // ---------------------------------------------------------------------- the merge

  function Lowers(ts: seq<string>): set<string> {
    set t | t in ts :: Lower(t)
  }

  /** The client tokens that get appended, given what has been seen. */
  function Appended(seen: set<string>, client: seq<string>, allow: set<string>): seq<string>
    decreases |client|
  {
    if client == [] then []
    else
      var lower := Lower(client[0]);
      if lower in allow && lower !in seen then [client[0]] + Appended(seen + {lower}, client[1..], allow)
      else Appended(seen, client[1..], allow)
  }

  function MergedTokens(base: seq<string>, client: seq<string>, allow: set<string>): seq<string> {
    base + Appended(Lowers(base), client, allow)
  }

  function Merged(base: string, client: string, allow: set<string>): string {
    Join(MergedTokens(Tokens(base), Tokens(client), allow), ",")
  }

  lemma AppendStep(list: seq<string>, seen: set<string>, client: seq<string>, i: nat, allow: set<string>)
    requires i < |client|
    ensures list + Appended(seen, client[i..], allow) ==
      var lower := Lower(client[i]);
      if lower in allow && lower !in seen then list + [client[i]] + Appended(seen + {lower}, client[i + 1..], allow)
      else list + Appended(seen, client[i + 1..], allow)
  {
    var lower := Lower(client[i]);
    assert client[i..][1..] == client[i + 1..];
    var rest := Appended(seen + {lower}, client[i + 1..], allow);
    assert list + ([client[i]] + rest) == list + [client[i]] + rest;
  }

  method MergeClientBeta(base: string, clientBeta: Option<string>, allow: seq<string>, model: Option<string>)
    returns (merged: string)
    ensures merged == Merged(base, if clientBeta.Some? then clientBeta.value else "", AllowSet(allow, model))
  {
    var baseList := Tokens(base);
    if clientBeta.None? || Trim(clientBeta.value) == "" {
      BlankHasNoTokens(if clientBeta.Some? then clientBeta.value else "");
      assert baseList + [] == baseList;
      return Join(baseList, ",");
    }
    ghost var start := baseList;
    var seen, allowSet, client := Lowers(baseList), AllowSet(allow, model), Tokens(clientBeta.value);
    for i := 0 to |client|
      invariant baseList + Appended(seen, client[i..], allowSet) == MergedTokens(start, client, allowSet)
    {
      var token := client[i];
      var lower := Lower(token);
      AppendStep(baseList, seen, client, i, allowSet);
      if lower in allowSet && lower !in seen {
        baseList := baseList + [token];
        seen := seen + {lower};
      }
    }
    assert client[|client|..] == [] && baseList + [] == baseList;
    merged := Join(baseList, ",");
  }

  // ------------------------------------------------------------------------- laws

  lemma {:induction false} AppendedFromClient(seen: set<string>, client: seq<string>, allow: set<string>)
    ensures forall t | t in Appended(seen, client, allow) :: t in client && Lower(t) in allow && Lower(t) !in seen
    decreases |client|
  {
    if client != [] {
      AppendedFromClient(seen, client[1..], allow);
      AppendedFromClient(seen + {Lower(client[0])}, client[1..], allow);
    }
  }

  /** The merged header reads back as the merged tokens. */
  lemma TokensOfMerged(base: string, client: string, allow: set<string>)
    ensures Tokens(Merged(base, client, allow)) == MergedTokens(Tokens(base), Tokens(client), allow)
  {
    TokensAreTokens(base);
    TokensAreTokens(client);
    AppendedFromClient(Lowers(Tokens(base)), Tokens(client), allow);
    TokensOfJoin(MergedTokens(Tokens(base), Tokens(client), allow));
  }

  lemma {:induction false} AppendedConcat(seen: set<string>, a: seq<string>, b: seq<string>, allow: set<string>)
    ensures
      var first := Appended(seen, a, allow);
      Appended(seen, a + b, allow) == first + Appended(seen + Lowers(first), b, allow)
    decreases |a|
  {
    var first := Appended(seen, a, allow);
    if a == [] {
      assert a + b == b && seen + Lowers(first) == seen;
    } else {
      assert (a + b)[1..] == a[1..] + b;
      var lower := Lower(a[0]);
      if lower in allow && lower !in seen {
        AppendedConcat(seen + {lower}, a[1..], b, allow);
        var rest := Appended(seen + {lower}, a[1..], allow);
        LowersConcat([a[0]], rest);
        assert Lowers([a[0]]) == {lower};
        assert seen + Lowers(first) == seen + {lower} + Lowers(rest);
      } else {
        AppendedConcat(seen, a[1..], b, allow);
      }
    }
  }

  lemma LowersConcat(a: seq<string>, b: seq<string>)
    ensures Lowers(a + b) == Lowers(a) + Lowers(b)
  {
    assert forall t :: t in a + b <==> t in a || t in b;
  }

  lemma MergedTokensTwice(b: seq<string>, t1: seq<string>, t2: seq<string>, allow: set<string>)
    ensures MergedTokens(MergedTokens(b, t1, allow), t2, allow) == MergedTokens(b, t1 + t2, allow)
  {
    var first := Appended(Lowers(b), t1, allow);
    AppendedConcat(Lowers(b), t1, t2, allow);
    LowersConcat(b, first);
    var second := Appended(Lowers(b + first), t2, allow);
    assert b + first + second == b + (first + second);
  }

  /** Merging two client lists one after the other is merging their concatenation once. */
  lemma MergeIsCompositional(base: string, c1: string, c2: string, allow: set<string>)
    ensures Merged(Merged(base, c1, allow), c2, allow) == Merged(base, c1 + "," + c2, allow)
  {
    TokensOfMerged(base, c1, allow);
    TokensConcat(c1, c2);
    MergedTokensTwice(Tokens(base), Tokens(c1), Tokens(c2), allow);
  }

  lemma {:induction false} NothingNew(seen: set<string>, client: seq<string>, allow: set<string>)
    requires forall t | t in client :: Lower(t) in allow ==> Lower(t) in seen
    ensures Appended(seen, client, allow) == []
  {
    if client != [] {
      assert client[0] in client;
      NothingNew(seen, client[1..], allow);
    }
  }

  lemma {:induction false} AllowedIsSeen(seen: set<string>, client: seq<string>, allow: set<string>)
    ensures forall t | t in client :: Lower(t) in allow ==> Lower(t) in seen + Lowers(Appended(seen, client, allow))
    decreases |client|
  {
    if client != [] {
      var lower := Lower(client[0]);
      var rest := Appended(if lower in allow && lower !in seen then seen + {lower} else seen, client[1..], allow);
      AllowedIsSeen(if lower in allow && lower !in seen then seen + {lower} else seen, client[1..], allow);
      if lower in allow && lower !in seen {
        LowersConcat([client[0]], rest);
        assert client[0] in [client[0]];
      }
    }
  }

  lemma MergedTokensAgain(b: seq<string>, t: seq<string>, allow: set<string>)
    ensures MergedTokens(MergedTokens(b, t, allow), t, allow) == MergedTokens(b, t, allow)
  {
    var first := Appended(Lowers(b), t, allow);
    LowersConcat(b, first);
    AllowedIsSeen(Lowers(b), t, allow);
    NothingNew(Lowers(b + first), t, allow);
    assert b + first + [] == b + first;
  }

  /** Merging the same client list again changes nothing. */
  lemma MergeIsIdempotent(base: string, client: string, allow: set<string>)
    ensures Merged(Merged(base, client, allow), client, allow) == Merged(base, client, allow)
  {
    TokensOfMerged(base, client, allow);
    MergedTokensAgain(Tokens(base), Tokens(client), allow);
  }

  // What exactly is appended, said by positions in the client's list.

  /** The first client token, up to case, that is allowed and not in the base. */
  predicate IsNew(base: seq<string>, client: seq<string>, allow: set<string>, k: nat)
    requires k < |client|
  {
    var lower := Lower(client[k]);
    lower in allow && lower !in Lowers(base) && lower !in Lowers(client[..k])
  }

  /** The new tokens at position `k` and after, in client order. */
  function NewFrom(base: seq<string>, client: seq<string>, allow: set<string>, k: nat): seq<string>
    requires k <= |client|
    decreases |client| - k
  {
    if k == |client| then []
    else (if IsNew(base, client, allow, k) then [client[k]] else []) + NewFrom(base, client, allow, k + 1)
  }

  lemma {:induction false} AppendedIsNewFrom(base: seq<string>, client: seq<string>, allow: set<string>, k: nat,
                                             seen: set<string>)
    requires k <= |client|
    requires forall lower | lower in allow :: lower in seen <==> lower in Lowers(base) || lower in Lowers(client[..k])
    ensures Appended(seen, client[k..], allow) == NewFrom(base, client, allow, k)
    decreases |client| - k
  {
    if k < |client| {
      var lower := Lower(client[k]);
      assert client[..k + 1] == client[..k] + [client[k]];
      LowersConcat(client[..k], [client[k]]);
      assert Lowers([client[k]]) == {lower};
      assert client[k..][1..] == client[k + 1..];
      AppendedIsNewFrom(base, client, allow, k + 1, if lower in allow && lower !in seen then seen + {lower} else seen);
    }
  }

  /**
   * The merged header is the normalised base followed by exactly the new client tokens, in
   * client order: allowed, not in the base, and the first of their spelling up to case.
   */
  lemma MergeAppendsExactlyTheNew(base: string, client: string, allow: set<string>)
    ensures Tokens(Merged(base, client, allow)) == Tokens(base) + NewFrom(Tokens(base), Tokens(client), allow, 0)
  {
    TokensOfMerged(base, client, allow);
    AppendedIsNewFrom(Tokens(base), Tokens(client), allow, 0, Lowers(Tokens(base)));
    assert Tokens(client)[0..] == Tokens(client);
  }

  /** The long-context beta is never appended for a named model that does not support it. */
  lemma LongContextIsGated(base: string, client: string, allow: seq<string>, model: string)
    requires model != "" && !SupportsContext1m(model)
    ensures
      var n := |Tokens(base)|;
      var merged := Tokens(Merged(base, client, AllowSet(allow, Some(model))));
      n <= |merged| && forall t | t in merged[n..] :: Lower(t) != CONTEXT_1M_BETA
  {
    TokensOfMerged(base, client, AllowSet(allow, Some(model)));
    AppendedFromClient(Lowers(Tokens(base)), Tokens(client), AllowSet(allow, Some(model)));
  }

  /** A dated id qualifies exactly when the bare one does. */
  lemma DatedModelAlike(id: string, date: string)
    requires Trimmed(id) && id != "" && |date| == 8 && forall c | c in date :: IsDigit(c)
    requires WithoutDate(Lower(id)) == Lower(id)
    ensures SupportsContext1m(id + "-" + date) <==> SupportsContext1m(id)
  {
    var dated := id + "-" + date;
    TrimFixes(id);
    assert dated[|dated| - 1] in date;
    TrimFixes(dated);
    assert Lower(dated) == Lower(id) + "-" + Lower(date);
    forall i | |id| < i < |dated| ensures IsDigit(Lower(dated)[i]) {
      assert dated[i] == date[i - |id| - 1] && date[i - |id| - 1] in date;
    }
    assert Lower(dated)[..|id|] == Lower(id);
  }

  // -------------------------------------------------- what is read, allowed and supported

  /** A piece without a comma is its own trimmed text, or nothing when it is blank. */
  lemma TokensOfPiece(piece: string)
    requires ',' !in piece
    ensures Tokens(piece) == if Blank(piece) then [] else [Trim(piece)]
  {
    TrimEmptyIff(piece);
    SplitWhole(piece, ',');
    assert [piece][1..] == [];
    assert Clean([piece]) == (if Trim(piece) != "" then [Trim(piece)] else []) + Clean([]);
  }

  /**
   * A beta may be forwarded exactly when the list has it, in any case, and, for the long-context
   * one, no model is named or the named one takes it.
   */
  lemma AllowSetIff(allow: seq<string>, model: Option<string>, beta: string)
    ensures beta in AllowSet(allow, model) <==>
              && (exists i :: 0 <= i < |allow| && Lower(allow[i]) == beta)
              && (beta == "context-1m-2025-08-07" ==>
                    model.None? || model.value == "" || SupportsContext1m(model.value))
  {
    if beta in AllowSet(allow, model) {
      var a :| a in allow && Lower(a) == beta
               && (Lower(a) == CONTEXT_1M_BETA && model.Some? && model.value != "" ==> SupportsContext1m(model.value));
      var i :| 0 <= i < |allow| && allow[i] == a;
      assert Lower(allow[i]) == beta;
    }
    if i :| 0 <= i < |allow| && Lower(allow[i]) == beta {
      assert allow[i] in allow;
    }
  }

  /** A long-context model or one of its variants. */
  predicate LongContextName(id: string) {
    || VariantOf(id, "claude-fable-5") || VariantOf(id, "claude-sonnet-5") || VariantOf(id, "claude-sonnet-4-6")
    || VariantOf(id, "claude-opus-4-8") || VariantOf(id, "claude-opus-4-7") || VariantOf(id, "claude-opus-4-6")
  }

  predicate VariantOf(id: string, name: string) {
    id == name || StartsWith(id, name + "-")
  }

  predicate IsDate(date: string) {
    |date| == 8 && forall i | 0 <= i < 8 :: IsDigit(date[i])
  }

  lemma ListedIff(id: string)
    ensures (exists s | s in CONTEXT_1M_SUPPORTED_MODELS :: id == s || StartsWith(id, s + "-")) <==> LongContextName(id)
  {
    var names := CONTEXT_1M_SUPPORTED_MODELS;
    assert names[0] in names && names[1] in names && names[2] in names;
    assert names[3] in names && names[4] in names && names[5] in names;
    forall s | s in names && (id == s || StartsWith(id, s + "-")) ensures LongContextName(id) {
      var i :| 0 <= i < |names| && names[i] == s;
      assert i == 0 || i == 1 || i == 2 || i == 3 || i == 4 || i == 5;
      assert VariantOf(id, names[i]);
    }
  }

  /** A dated model, in any case, takes the long context exactly when it is one of these without its date. */
  lemma DatedSupport(model: string, bare: string, date: string)
    requires Lower(Trim(model)) == bare + "-" + date && IsDate(date)
    ensures SupportsContext1m(model) <==> LongContextName(bare)
  {
    var id := Lower(Trim(model));
    var n := |id| - 9;
    assert n == |bare| && id[n] == '-' && id[..n] == bare;
    forall i | n < i < |id| ensures IsDigit(id[i]) {
      assert id[i] == date[i - n - 1];
    }
    ListedIff(bare);
  }

  /** Any other model takes it exactly when it is one of these as it stands. */
  lemma UndatedSupport(model: string)
    requires forall bare, date | Lower(Trim(model)) == bare + "-" + date :: !IsDate(date)
    ensures SupportsContext1m(model) <==> LongContextName(Lower(Trim(model)))
  {
    var id := Lower(Trim(model));
    var n := |id| - 9;
    if n >= 0 && id[n] == '-' {
      var bare, date := id[..n], id[n + 1..];
      assert id == bare + "-" + date;
      assert !IsDate(date);
    }
    assert WithoutDate(id) == id;
    ListedIff(id);
  }
}
