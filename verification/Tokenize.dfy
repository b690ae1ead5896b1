// Util::tokenize.
module Tokenize {

  // The tokens of a text, built up character by character.
  function TokensOf(str: string, delimiters: string): (r: seq<string>)
    ensures r != []
  {
    if str == "" then [""]
    else
      var init, c := TokensOf(str[..|str| - 1], delimiters), str[|str| - 1];
      if c in delimiters then init + [""] else WithLast(init, c)
  }

  // The delimiter characters of a text, in order.
  function DelimitersIn(str: string, delimiters: string): string {
    if str == "" then ""
    else
      var init, c := DelimitersIn(str[..|str| - 1], delimiters), str[|str| - 1];
      if c in delimiters then init + [c] else init
  }

  // Tokens with a delimiter after each but the last.
  function Interleaved(tokens: seq<string>, between: string): string
    requires |tokens| == |between| + 1
  {
    if between == "" then tokens[0]
    else
      var m := |between|;
      Interleaved(tokens[..m], between[..m - 1]) + [between[m - 1]] + tokens[m]
  }

  function WithLast(tokens: seq<string>, c: char): seq<string>
    requires tokens != []
  {
    tokens[..|tokens| - 1] + [tokens[|tokens| - 1] + [c]]
  }

  lemma TokensSnoc(str: string, c: char, delimiters: string)
    ensures TokensOf(str + [c], delimiters)
            == if c in delimiters then TokensOf(str, delimiters) + [""] else WithLast(TokensOf(str, delimiters), c)
  {
    assert (str + [c])[..|str|] == str;
  }

  // One round of the loop: the current token ends, or grows.
  lemma NextCharacter(str: string, delimiters: string, tkBegin: nat, i: nat, done: seq<string>)
    requires tkBegin <= i < |str| && TokensOf(str[..i], delimiters) == done + [str[tkBegin..i]]
    ensures TokensOf(str[..i + 1], delimiters)
            == if str[i] in delimiters then done + [str[tkBegin..i]] + [str[i + 1..i + 1]]
               else done + [str[tkBegin..i + 1]]
  {
    assert str[..i + 1] == str[..i] + [str[i]];
    TokensSnoc(str[..i], str[i], delimiters);
    assert str[i + 1..i + 1] == "";
    assert str[tkBegin..i + 1] == str[tkBegin..i] + [str[i]];
  }

  method Tokenize(str: string, delimiters: string) returns (result: seq<string>)
    ensures result == TokensOf(str, delimiters)
  {
    result := [];
    var current, tkBegin := 0, 0;
    ghost var tokens := TokensOf(str[..0], delimiters);
    while current < |str|
      invariant tkBegin <= current <= |str|
      invariant tokens == TokensOf(str[..current], delimiters)
      invariant tokens == result + [str[tkBegin..current]]
    {
      NextCharacter(str, delimiters, tkBegin, current, result);
      tokens := TokensOf(str[..current + 1], delimiters);
      if AnyOf(delimiters, str[current]) {
        result := result + [str[tkBegin..current]];
        tkBegin := current + 1;
      }
      current := current + 1;
    }
    assert str[..current] == str;
    result := result + [str[tkBegin..|str|]];
  }

  // std::any_of over the delimiters.
  predicate AnyOf(delimiters: string, c: char) {
    exists i | 0 <= i < |delimiters| :: delimiters[i] == c
  }

  predicate Free(token: string, delimiters: string) {
    forall i | 0 <= i < |token| :: token[i] !in delimiters
  }

  // One token more than delimiters, no delimiter in a token, and nothing of the text is lost.
  lemma {:induction false} TokenizeLosesNothing(str: string, delimiters: string)
    ensures var tokens, between := TokensOf(str, delimiters), DelimitersIn(str, delimiters);
            && |tokens| == |between| + 1
            && (forall i | 0 <= i < |tokens| :: Free(tokens[i], delimiters))
            && (forall i | 0 <= i < |between| :: between[i] in delimiters)
            && Interleaved(tokens, between) == str
  {
    if str != "" {
      var init, c := str[..|str| - 1], str[|str| - 1];
      TokenizeLosesNothing(init, delimiters);
      var tokens, between := TokensOf(init, delimiters), DelimitersIn(init, delimiters);
      assert str == init + [c];
      if c in delimiters {
        assert (tokens + [""])[..|tokens|] == tokens && (between + [c])[..|between|] == between;
      } else {
        ExtendLast(tokens, between, c);
      }
    }
  }

  lemma ExtendLast(tokens: seq<string>, between: string, c: char)
    requires |tokens| == |between| + 1
    ensures Interleaved(WithLast(tokens, c), between) == Interleaved(tokens, between) + [c]
  {
    var m := |between|;
    if m > 0 {
      assert WithLast(tokens, c)[..m] == tokens[..m];
    }
  }

  // And nothing else has these properties: tokens free of delimiters, joined by delimiters, come
  // back.
  lemma {:induction false} TokenizeUnique(tokens: seq<string>, between: string, delimiters: string)
    requires |tokens| == |between| + 1
    requires forall i | 0 <= i < |tokens| :: Free(tokens[i], delimiters)
    requires forall i | 0 <= i < |between| :: between[i] in delimiters
    ensures TokensOf(Interleaved(tokens, between), delimiters) == tokens
    decreases |between|, |tokens[|between|]|
  {
    var m := |between|;
    var last := tokens[m];
    if last != "" {
      var shorter := tokens[m := last[..|last| - 1]];
      assert Free(last, delimiters);
      TokenizeUnique(shorter, between, delimiters);
      ShorterToken(tokens, between, delimiters, shorter);
    } else if m > 0 {
      TokenizeUnique(tokens[..m], between[..m - 1], delimiters);
      EmptyToken(tokens, between, delimiters);
    } else {
      assert tokens == [""];
    }
  }

  lemma ShorterToken(tokens: seq<string>, between: string, delimiters: string, shorter: seq<string>)
    requires |tokens| == |between| + 1 && tokens[|between|] != "" && Free(tokens[|between|], delimiters)
    requires var last := tokens[|between|]; shorter == tokens[|between| := last[..|last| - 1]]
    requires TokensOf(Interleaved(shorter, between), delimiters) == shorter
    ensures TokensOf(Interleaved(tokens, between), delimiters) == tokens
  {
    var last := tokens[|between|];
    var c := last[|last| - 1];
    LastGrows(tokens, |between|, shorter);
    ExtendLast(shorter, between, c);
    TokensSnoc(Interleaved(shorter, between), c, delimiters);
  }

  lemma LastGrows(tokens: seq<string>, m: nat, shorter: seq<string>)
    requires |tokens| == m + 1 && tokens[m] != "" && shorter == tokens[m := tokens[m][..|tokens[m]| - 1]]
    ensures WithLast(shorter, tokens[m][|tokens[m]| - 1]) == tokens
  {
    var last := tokens[m];
    assert last == last[..|last| - 1] + [last[|last| - 1]];
  }

  lemma EmptyToken(tokens: seq<string>, between: string, delimiters: string)
    requires |tokens| == |between| + 1 && between != "" && tokens[|between|] == ""
    requires between[|between| - 1] in delimiters
    requires TokensOf(Interleaved(tokens[..|between|], between[..|between| - 1]), delimiters) == tokens[..|between|]
    ensures TokensOf(Interleaved(tokens, between), delimiters) == tokens
  {
    var m := |between|;
    var str := Interleaved(tokens[..m], between[..m - 1]);
    assert Interleaved(tokens, between) == str + [between[m - 1]];
    TokensSnoc(str, between[m - 1], delimiters);
    assert tokens == tokens[..m] + [""];
  }
}
