// PlayerClient::Info: expanding %tokens in a format string.
module Format {
  import opened Playback

  // The playback info as the formatter uses it; the numbers as std::to_string prints them.
  datatype PlaybackInfo = PlaybackInfo(
    title: string, album: string, artist: string, state: State,
    volume: string, totalTime: string, elapsedTime: string, remainingTime: string)

  // info_get: unknown tokens have no text.
  function InfoGet(token: string, info: PlaybackInfo): string {
    if token == "artist" then info.artist
    else if token == "album" then info.album
    else if token == "state" then
      match info.state {
        case PLAYING => "PLAYING"
        case PAUSED => "PAUSED"
        case STOPPED => "STOPPED"
        case _ => "UNDEFINED"
      }
    else if token == "title" then info.title
    else if token == "volume" then info.volume
    else if token == "tt" then info.totalTime
    else if token == "et" then info.elapsedTime
    else if token == "rt" then info.remainingTime
    else ""
  }

  // ---- the grammar of formats ----

  datatype Segment = Literal(text: string) | Token(name: string)

  predicate IsAlpha(c: char) {
    'a' <= c <= 'z' || 'A' <= c <= 'Z'
  }

  // Where a letter run that starts at i ends.
  function TokenEnd(f: string, i: nat): (e: nat)
    requires i <= |f|
    ensures i <= e <= |f|
    ensures forall k | i <= k < e :: IsAlpha(f[k])
    ensures e < |f| ==> !IsAlpha(f[e])
    decreases |f| - i
  {
    if i < |f| && IsAlpha(f[i]) then TokenEnd(f, i + 1) else i
  }

  // Where the next percent sign at or after i is.
  function NextPercent(f: string, i: nat): (e: nat)
    requires i <= |f|
    ensures i <= e <= |f|
    ensures forall k | i <= k < e :: f[k] != '%'
    ensures e < |f| ==> f[e] == '%'
    decreases |f| - i
  {
    if i < |f| && f[i] != '%' then NextPercent(f, i + 1) else i
  }

  function Source(segment: Segment): string {
    match segment
    case Literal(text) => text
    case Token(name) => "%" + name
  }

  function Unparse(segments: seq<Segment>): string {
    if segments == [] then "" else Source(segments[0]) + Unparse(segments[1..])
  }

  // Whether head may stand before a well-formed tail.
  predicate FitsBefore(head: Segment, tail: seq<Segment>) {
    match head
    case Literal(text) => text != "" && '%' !in text && (tail != [] ==> tail[0].Token?)
    case Token(name) =>
      && (forall k | 0 <= k < |name| :: IsAlpha(name[k]))
      && (tail != [] && tail[0].Literal? && tail[0].text != "" ==> !IsAlpha(tail[0].text[0]))
  }

  // Non-empty percent-free literals, never two in a row, and tokens with all the letters that
  // follow their percent sign.
  predicate WellFormed(segments: seq<Segment>) {
    segments != [] ==> FitsBefore(segments[0], segments[1..]) && WellFormed(segments[1..])
  }

  function Parse(f: string, i: nat): (segments: seq<Segment>)
    requires i <= |f|
    decreases |f| - i
  {
    if i == |f| then []
    else if f[i] == '%' then [Token(f[i + 1..TokenEnd(f, i + 1)])] + Parse(f, TokenEnd(f, i + 1))
    else [Literal(f[i..NextPercent(f, i)])] + Parse(f, NextPercent(f, i))
  }

  lemma ParseToken(f: string, i: nat, e: nat)
    requires i < |f| && f[i] == '%' && e == TokenEnd(f, i + 1)
    ensures Parse(f, i) == [Token(f[i + 1..e])] + Parse(f, e)
  {
  }

  lemma ParseLiteral(f: string, i: nat, e: nat)
    requires i < |f| && f[i] != '%' && e == NextPercent(f, i)
    ensures i < e && Parse(f, i) == [Literal(f[i..e])] + Parse(f, e)
  {
  }

  lemma UnparseCons(head: Segment, tail: seq<Segment>)
    ensures Unparse([head] + tail) == Source(head) + Unparse(tail)
  {
    assert ([head] + tail)[1..] == tail;
  }

  lemma WellFormedCons(head: Segment, tail: seq<Segment>)
    ensures WellFormed([head] + tail) <==> FitsBefore(head, tail) && WellFormed(tail)
  {
    assert ([head] + tail)[1..] == tail;
  }

  // The first character of a well-formed text is a percent sign exactly when a token comes first.
  lemma FirstCharacter(segments: seq<Segment>)
    requires segments != [] && WellFormed(segments)
    ensures Unparse(segments) != ""
    ensures Unparse(segments)[0] == '%' <==> segments[0].Token?
    ensures segments[0].Literal? ==> segments[0].text != "" && Unparse(segments)[0] == segments[0].text[0]
  {
  }

  // Parsing is the inverse of writing out: every format has a well-formed parse ...
  lemma {:induction false} ParseSound(f: string, i: nat)
    requires i <= |f|
    ensures Unparse(Parse(f, i)) == f[i..] && WellFormed(Parse(f, i))
    decreases |f| - i
  {
    if i < |f| && f[i] == '%' {
      var e := TokenEnd(f, i + 1);
      ParseToken(f, i, e);
      ParseSound(f, e);
      FirstSegmentSound(f, i, e, Token(f[i + 1..e]), Parse(f, e));
    } else if i < |f| {
      var e := NextPercent(f, i);
      ParseLiteral(f, i, e);
      ParseSound(f, e);
      FirstSegmentSound(f, i, e, Literal(f[i..e]), Parse(f, e));
    }
  }

  lemma FirstSegmentSound(f: string, i: nat, e: nat, head: Segment, tail: seq<Segment>)
    requires i < e <= |f| && WellFormed(tail) && Unparse(tail) == f[e..]
    requires if f[i] == '%' then e == TokenEnd(f, i + 1) && head == Token(f[i + 1..e])
             else e == NextPercent(f, i) && head == Literal(f[i..e])
    ensures Unparse([head] + tail) == f[i..] && WellFormed([head] + tail)
  {
    SegmentFits(f, i, e, head, tail);
    UnparseCons(head, tail);
    WellFormedCons(head, tail);
    JoinedSlices(f, i, e);
  }

  lemma JoinedSlices(f: string, i: nat, e: nat)
    requires i <= e <= |f|
    ensures f[i..e] + f[e..] == f[i..]
  {
  }

  lemma SegmentFits(f: string, i: nat, e: nat, head: Segment, tail: seq<Segment>)
    requires i < e <= |f| && WellFormed(tail) && Unparse(tail) == f[e..]
    requires if f[i] == '%' then e == TokenEnd(f, i + 1) && head == Token(f[i + 1..e])
             else e == NextPercent(f, i) && head == Literal(f[i..e])
    ensures FitsBefore(head, tail) && Source(head) == f[i..e]
  {
    if tail != [] {
      FirstCharacter(tail);
      assert f[e..][0] == f[e];
    }
  }

  // ... and no other one.
  lemma {:induction false} ParseUnique(f: string, i: nat, segments: seq<Segment>)
    requires i <= |f| && WellFormed(segments) && Unparse(segments) == f[i..]
    ensures segments == Parse(f, i)
    decreases |segments|
  {
    if segments != [] {
      var head, tail := segments[0], segments[1..];
      assert segments == [head] + tail;
      WellFormedCons(head, tail);
      UnparseCons(head, tail);
      var e := i + |Source(head)|;
      SplitAt(f, i, e, Source(head), Unparse(tail));
      ParseUnique(f, e, tail);
      FirstSegment(f, i, e, head, tail);
    }
  }

  lemma SplitAt(f: string, i: nat, e: nat, a: string, b: string)
    requires i <= |f| && f[i..] == a + b && e == i + |a|
    ensures e <= |f| && f[i..e] == a && f[e..] == b
  {
    assert f[i..][..|a|] == a && f[i..][|a|..] == b;
  }

  lemma FirstSegment(f: string, i: nat, e: nat, head: Segment, tail: seq<Segment>)
    requires i <= e <= |f| && f[i..e] == Source(head) && f[e..] == Unparse(tail)
    requires FitsBefore(head, tail) && WellFormed(tail)
    requires tail == Parse(f, e)
    ensures Parse(f, i) == [head] + tail
  {
    if tail != [] {
      FirstCharacter(tail);
      assert f[e..][0] == f[e];
    }
    match head
    case Token(name) =>
      assert f[i..e][0] == '%' && f[i..e][1..] == name;
      assert forall k | i + 1 <= k < e :: f[k] == name[k - (i + 1)];
      TokenEndIs(f, i + 1, e);
      ParseToken(f, i, e);
      assert f[i + 1..e] == name;
    case Literal(text) =>
      assert forall k | i <= k < e :: f[k] == text[k - i];
      NextPercentIs(f, i, e);
      ParseLiteral(f, i, e);
  }

  lemma {:induction false} TokenEndIs(f: string, i: nat, e: nat)
    requires i <= e <= |f| && (e < |f| ==> !IsAlpha(f[e]))
    requires forall k | i <= k < e :: IsAlpha(f[k])
    ensures TokenEnd(f, i) == e
    decreases e - i
  {
    if i < e {
      TokenEndIs(f, i + 1, e);
    }
  }

  lemma {:induction false} NextPercentIs(f: string, i: nat, e: nat)
    requires i <= e <= |f| && (e < |f| ==> f[e] == '%')
    requires forall k | i <= k < e :: f[k] != '%'
    ensures NextPercent(f, i) == e
    decreases e - i
  {
    if i < e {
      NextPercentIs(f, i + 1, e);
    }
  }

  // ---- what Info prints ----

  function Rendered(segment: Segment, info: PlaybackInfo): string {
    match segment
    case Literal(text) => text
    case Token(name) => if InfoGet(name, info) == "" then "%" + name else InfoGet(name, info)
  }

  function RenderedAll(segments: seq<Segment>, info: PlaybackInfo): string {
    if segments == [] then "" else Rendered(segments[0], info) + RenderedAll(segments[1..], info)
  }

  // The segments up to and including the last token: a literal at the end is dropped.
  function UpToLastToken(segments: seq<Segment>): seq<Segment> {
    if segments == [] then []
    else if |segments| == 1 && segments[0].Literal? then []
    else [segments[0]] + UpToLastToken(segments[1..])
  }

  // What is printed for the format from position i on.
  function Output(f: string, i: nat, info: PlaybackInfo): string
    requires i <= |f|
  {
    RenderedAll(UpToLastToken(Parse(f, i)), info)
  }

  // The token's text, or the token itself when that is empty.
  method Replaced(format: string, tokBeg: nat, tokEnd: nat, info: PlaybackInfo) returns (printed: string)
    requires 0 < tokBeg <= tokEnd <= |format| && format[tokBeg - 1] == '%'
    ensures printed == Rendered(Token(format[tokBeg..tokEnd]), info)
  {
    var token := format[tokBeg..tokEnd];
    var replacement := InfoGet(token, info);
    if replacement == "" {
      assert format[tokBeg - 1..tokEnd] == "%" + token;
      return format[tokBeg - 1..tokEnd];
    }
    return replacement;
  }

  method Info(format: string, info: PlaybackInfo) returns (result: string)
    ensures result == Output(format, 0, info)
  {
    result := "";
    var begin := 0;
    var tokBeg := NextPercent(format, begin);
    ghost var all, rest := Output(format, 0, info), Output(format, 0, info);
    while tokBeg != |format|
      invariant begin <= tokBeg <= |format| && tokBeg == NextPercent(format, begin)
      invariant rest == Output(format, begin, info) && all == result + rest
      decreases |format| - begin
    {
      ghost var done := result;
      var literal := format[begin..tokBeg];
      result := result + literal;
      tokBeg := tokBeg + 1;
      var tokEnd := TokenEnd(format, tokBeg);
      var printed := Replaced(format, tokBeg, tokEnd, info);
      result := result + printed;
      ParseFromPercent(format, begin, tokBeg - 1, tokEnd, info);
      ghost var after := Output(format, tokEnd, info);
      assert rest == literal + (printed + after);
      Regroup(done, literal, printed, after);
      rest := after;
      begin := tokEnd;
      tokBeg := NextPercent(format, begin);
    }
    NoMoreTokens(format, begin);
  }

  lemma Regroup(done: string, literal: string, printed: string, after: string)
    ensures done + (literal + (printed + after)) == done + literal + printed + after
  {
  }

  // One round of the loop prints a literal, which may be empty, and a token.
  lemma ParseFromPercent(f: string, i: nat, p: nat, e: nat, info: PlaybackInfo)
    requires i <= p < |f| && p == NextPercent(f, i) && e == TokenEnd(f, p + 1)
    ensures Output(f, i, info) == f[i..p] + (Rendered(Token(f[p + 1..e]), info) + Output(f, e, info))
  {
    TokenFirst(f, p, e, info);
    if i < p {
      ParseLiteral(f, i, p);
      ParseToken(f, p, e);
      RenderFirst(Literal(f[i..p]), Parse(f, p), info);
    } else {
      NothingBefore(f[i..p], Output(f, p, info));
    }
  }

  lemma NothingBefore(a: string, b: string)
    requires a == ""
    ensures a + b == b
  {
  }

  lemma TokenFirst(f: string, p: nat, e: nat, info: PlaybackInfo)
    requires p < |f| && f[p] == '%' && e == TokenEnd(f, p + 1)
    ensures Output(f, p, info) == Rendered(Token(f[p + 1..e]), info) + Output(f, e, info)
  {
    ParseToken(f, p, e);
    RenderFirst(Token(f[p + 1..e]), Parse(f, e), info);
  }

  lemma RenderFirst(head: Segment, tail: seq<Segment>, info: PlaybackInfo)
    requires head.Token? || tail != []
    ensures RenderedAll(UpToLastToken([head] + tail), info)
            == Rendered(head, info) + RenderedAll(UpToLastToken(tail), info)
  {
    assert ([head] + tail)[1..] == tail;
    assert ([head] + UpToLastToken(tail))[1..] == UpToLastToken(tail);
  }

  lemma NoMoreTokens(f: string, i: nat)
    requires i <= |f| && NextPercent(f, i) == |f|
    ensures UpToLastToken(Parse(f, i)) == []
  {
    if i < |f| {
      ParseLiteral(f, i, |f|);
    }
  }

  // The kept segments end with a token, and all that may follow them is one literal.
  predicate KeptExactly(kept: seq<Segment>, segments: seq<Segment>) {
    && (kept == [] || kept[|kept| - 1].Token?)
    && (segments == kept
        || (|segments| == |kept| + 1 && segments[..|kept|] == kept && segments[|kept|].Literal?))
  }

  lemma KeptCons(head: Segment, kept: seq<Segment>, tail: seq<Segment>)
    requires KeptExactly(kept, tail) && (head.Token? || kept != [])
    ensures KeptExactly([head] + kept, [head] + tail)
  {
    assert ([head] + tail)[..|kept| + 1] == [head] + tail[..|kept|];
  }

  lemma {:induction false} KeptIsExact(segments: seq<Segment>)
    requires WellFormed(segments)
    ensures KeptExactly(UpToLastToken(segments), segments)
  {
    if segments != [] && !(|segments| == 1 && segments[0].Literal?) {
      var head, tail := segments[0], segments[1..];
      KeptIsExact(tail);
      assert FitsBefore(head, tail);
      KeptCons(head, UpToLastToken(tail), tail);
      assert segments == [head] + tail;
    }
  }

  lemma {:induction false} LiteralsHaveNoPercent(segments: seq<Segment>, k: nat)
    requires WellFormed(segments) && k < |segments| && segments[k].Literal?
    ensures '%' !in segments[k].text
  {
    if k > 0 {
      LiteralsHaveNoPercent(segments[1..], k - 1);
    }
  }

  lemma {:induction false} UnparseSnoc(segments: seq<Segment>, last: Segment)
    ensures Unparse(segments + [last]) == Unparse(segments) + Source(last)
  {
    if segments == [] {
      UnparseCons(last, []);
      assert segments + [last] == [last] + [];
    } else {
      var head, tail := segments[0], segments[1..];
      UnparseSnoc(tail, last);
      assert (segments + [last])[1..] == tail + [last];
      Associate(Source(head), Unparse(tail), Source(last));
    }
  }

  lemma Associate(a: string, b: string, c: string)
    ensures a + (b + c) == a + b + c
  {
  }

  // What is dropped is one literal after the last token, if there is one, and nothing else.
  lemma DropsOnlyTrailingLiteral(segments: seq<Segment>)
    requires WellFormed(segments)
    ensures KeptExactly(UpToLastToken(segments), segments)
    ensures Unparse(UpToLastToken(segments)) <= Unparse(segments)
    ensures '%' !in Unparse(segments)[|Unparse(UpToLastToken(segments))|..]
  {
    var kept := UpToLastToken(segments);
    KeptIsExact(segments);
    if segments != kept {
      var last := segments[|kept|];
      assert segments == kept + [last];
      LiteralsHaveNoPercent(segments, |kept|);
      UnparseSnoc(kept, last);
    }
  }

  // The only segments of this kind.
  lemma KeptUnique(segments: seq<Segment>, kept: seq<Segment>)
    requires WellFormed(segments) && KeptExactly(kept, segments)
    ensures kept == UpToLastToken(segments)
  {
    KeptIsExact(segments);
  }

  lemma {:induction false} UnknownTokensStay(segments: seq<Segment>, info: PlaybackInfo)
    requires forall s | s in segments && s.Token? :: InfoGet(s.name, info) == ""
    ensures RenderedAll(segments, info) == Unparse(segments)
  {
    if segments != [] {
      assert segments[0] in segments;
      UnknownTokensStay(segments[1..], info);
    }
  }

  lemma {:induction false} KeptSegments(segments: seq<Segment>)
    ensures forall s | s in UpToLastToken(segments) :: s in segments
  {
    if segments != [] {
      KeptSegments(segments[1..]);
    }
  }

  // When every token is unknown or has an empty text, the output is the format itself, exactly up
  // to the end of its last token; the text after it is never written.
  lemma UnknownTokensGivePrefix(format: string, info: PlaybackInfo)
    requires forall s | s in Parse(format, 0) && s.Token? :: InfoGet(s.name, info) == ""
    ensures var output, kept := Output(format, 0, info), UpToLastToken(Parse(format, 0));
            && output <= format && '%' !in format[|output|..]
            && output == Unparse(kept) && KeptExactly(kept, Parse(format, 0))
  {
    var segments := Parse(format, 0);
    ParseSound(format, 0);
    assert format[0..] == format;
    KeptSegments(segments);
    UnknownTokensStay(UpToLastToken(segments), info);
    DropsOnlyTrailingLiteral(segments);
  }

  // ---- what each token prints ----

  // A literal, a token and a rest that does not go on with a letter.
  predicate Splits(literal: string, name: string, rest: string) {
    && '%' !in literal
    && (forall i | 0 <= i < |name| :: 'a' <= name[i] <= 'z' || 'A' <= name[i] <= 'Z')
    && (rest != "" ==> !('a' <= rest[0] <= 'z') && !('A' <= rest[0] <= 'Z'))
  }

  // The format prints the literal, then this text, or the token itself when the text is empty, and
  // then what the rest prints.
  predicate Prints(literal: string, name: string, rest: string, info: PlaybackInfo, text: string) {
    Output(literal + ("%" + (name + rest)), 0, info)
    == literal + ((if text == "" then "%" + name else text) + Output(rest, 0, info))
  }

  const KNOWN: set<string> := {"artist", "album", "state", "title", "volume", "tt", "et", "rt"}

  // The eight tokens print their fields, all others themselves.
  lemma TokensPrint(literal: string, name: string, rest: string, info: PlaybackInfo)
    requires Splits(literal, name, rest)
    ensures name == "artist" ==> Prints(literal, name, rest, info, info.artist)
    ensures name == "album" ==> Prints(literal, name, rest, info, info.album)
    ensures name == "title" ==> Prints(literal, name, rest, info, info.title)
    ensures name == "volume" ==> Prints(literal, name, rest, info, info.volume)
    ensures name == "tt" ==> Prints(literal, name, rest, info, info.totalTime)
    ensures name == "et" ==> Prints(literal, name, rest, info, info.elapsedTime)
    ensures name == "rt" ==> Prints(literal, name, rest, info, info.remainingTime)
    ensures name == "state" && info.state == PLAYING ==> Prints(literal, name, rest, info, "PLAYING")
    ensures name == "state" && info.state == PAUSED ==> Prints(literal, name, rest, info, "PAUSED")
    ensures name == "state" && info.state == STOPPED ==> Prints(literal, name, rest, info, "STOPPED")
    ensures name == "state" && info.state !in {PLAYING, PAUSED, STOPPED} ==>
              Prints(literal, name, rest, info, "UNDEFINED")
    ensures name !in KNOWN ==> Prints(literal, name, rest, info, "")
  {
    TokenPrints(literal, name, rest, info);
    KnownTexts(name, info);
  }

  lemma KnownTexts(name: string, info: PlaybackInfo)
    ensures name == "artist" ==> InfoGet(name, info) == info.artist
    ensures name == "album" ==> InfoGet(name, info) == info.album
    ensures name == "title" ==> InfoGet(name, info) == info.title
    ensures name == "volume" ==> InfoGet(name, info) == info.volume
    ensures name == "tt" ==> InfoGet(name, info) == info.totalTime
    ensures name == "et" ==> InfoGet(name, info) == info.elapsedTime
    ensures name == "rt" ==> InfoGet(name, info) == info.remainingTime
    ensures name == "state" && info.state == PLAYING ==> InfoGet(name, info) == "PLAYING"
    ensures name == "state" && info.state == PAUSED ==> InfoGet(name, info) == "PAUSED"
    ensures name == "state" && info.state == STOPPED ==> InfoGet(name, info) == "STOPPED"
    ensures name == "state" && info.state !in {PLAYING, PAUSED, STOPPED} ==> InfoGet(name, info) == "UNDEFINED"
    ensures name !in KNOWN ==> InfoGet(name, info) == ""
  {
    assert |"artist"| == 6 && |"album"| == |"state"| == |"title"| == 5 && |"tt"| == |"et"| == |"rt"| == 2;
    assert "album"[0] == 'a' && "state"[0] == 's' && "title"[0] == 't' && "artist"[0] == 'a' && "volume"[0] == 'v';
    assert "tt"[0] == 't' && "et"[0] == 'e' && "rt"[0] == 'r';
  }

  lemma TokenPrints(literal: string, name: string, rest: string, info: PlaybackInfo)
    requires Splits(literal, name, rest)
    ensures Prints(literal, name, rest, info, InfoGet(name, info))
  {
    FormatParts(literal, name, rest);
    TokenPrintsIn(literal + ("%" + (name + rest)), literal, name, rest, info);
  }

  // The parts are these stretches of the format.
  predicate PartsAre(f: string, literal: string, name: string, rest: string) {
    var p := |literal|;
    var e := p + 1 + |name|;
    && |f| == e + |rest| && f[0..p] == literal && f[p] == '%' && f[p + 1..e] == name && f[e..] == rest
    && (forall k | 0 <= k < p :: f[k] == literal[k])
    && (forall k | p + 1 <= k < e :: f[k] == name[k - (p + 1)])
    && (rest != "" ==> f[e] == rest[0])
  }

  lemma PartsFound(f: string, literal: string, name: string, rest: string)
    requires Splits(literal, name, rest) && PartsAre(f, literal, name, rest)
    ensures var p := |literal|;
            NextPercent(f, 0) == p && TokenEnd(f, p + 1) == p + 1 + |name|
  {
    NextPercentIs(f, 0, |literal|);
    TokenEndIs(f, |literal| + 1, |literal| + 1 + |name|);
  }

  lemma TokenPrintsIn(f: string, literal: string, name: string, rest: string, info: PlaybackInfo)
    requires Splits(literal, name, rest) && PartsAre(f, literal, name, rest)
    ensures Output(f, 0, info) == literal + (Rendered(Token(name), info) + Output(rest, 0, info))
  {
    PartsFound(f, literal, name, rest);
    SlicesPrinted(f, |literal|, |literal| + 1 + |name|, literal, name, rest, info);
  }

  lemma SlicesPrinted(
    f: string, p: nat, e: nat, literal: string, name: string, rest: string, info: PlaybackInfo)
    requires p < e <= |f| && p == NextPercent(f, 0) && e == TokenEnd(f, p + 1)
    requires f[0..p] == literal && f[p + 1..e] == name && f[e..] == rest
    ensures Output(f, 0, info) == literal + (Rendered(Token(name), info) + Output(rest, 0, info))
  {
    ParseFromPercent(f, 0, p, e, info);
    SameRest(f, e, rest, info);
  }

  lemma FormatParts(literal: string, name: string, rest: string)
    ensures PartsAre(literal + ("%" + (name + rest)), literal, name, rest)
  {
  }

  // What is printed depends on the rest of the format only.
  lemma SameRest(f: string, i: nat, rest: string, info: PlaybackInfo)
    requires i <= |f| && f[i..] == rest
    ensures Output(f, i, info) == Output(rest, 0, info)
  {
    assert rest[0..] == rest;
    ParseSound(rest, 0);
    ParseUnique(f, i, Parse(rest, 0));
  }

  // A format without a token prints nothing.
  lemma NoTokenPrintsNothing(f: string, info: PlaybackInfo)
    requires '%' !in f
    ensures Output(f, 0, info) == ""
  {
    NextPercentIs(f, 0, |f|);
    NoMoreTokens(f, 0);
  }
}
