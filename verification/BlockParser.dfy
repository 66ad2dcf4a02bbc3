/**
 * Finding the file blocks in an agent's answer: a header naming a path, a fence with an optional
 * language, and everything up to the first line that starts a closing fence.
 */
module BlockParser {
  import opened Wrappers

  const HEADER := "[FILE:"
  const FENCE := "```"
  const CLOSING := "\n```"

  datatype Block = Block(path: string, code: string)

  predicate IsSpace(c: char) { c == ' ' || '\t' <= c <= '\r' || '\U{1c}' <= c <= '\U{1f}' }

  predicate IsAlnum(c: char) { 'a' <= c <= 'z' || 'A' <= c <= 'Z' || '0' <= c <= '9' }

  predicate IsPathChar(c: char) { IsAlnum(c) || c == '_' || c == '-' || c == '.' || c == '/' }

  predicate StartsWith(s: string, prefix: string) {
    |s| >= |prefix| && s[..|prefix|] == prefix
  }

  /** The longest prefix of characters of one kind. */
  function TakeWhile(s: string, kind: char -> bool): (prefix: string)
    ensures |prefix| <= |s| && prefix == s[..|prefix|]
    ensures forall i :: 0 <= i < |prefix| ==> kind(prefix[i])
    ensures |prefix| < |s| ==> !kind(s[|prefix|])
  {
    if |s| > 0 && kind(s[0]) then [s[0]] + TakeWhile(s[1..], kind) else ""
  }

  function DropWhile(s: string, kind: char -> bool): string {
    s[|TakeWhile(s, kind)|..]
  }

  /** Where the first closing fence starts. */
  function FindClosing(s: string): (at: Option<nat>)
    ensures at.Some? ==> at.value + |CLOSING| <= |s| && StartsWith(s[at.value..], CLOSING)
    ensures at.Some? ==> forall i :: 0 <= i < at.value ==> !StartsWith(s[i..], CLOSING)
    ensures at.None? ==> forall i :: 0 <= i <= |s| ==> !StartsWith(s[i..], CLOSING)
  {
    assert s[0..] == s;
    assert forall i :: 0 < i <= |s| ==> s[1..][i - 1..] == s[i..];
    if StartsWith(s, CLOSING) then Some(0)
    else if |s| == 0 then None
    else
      match FindClosing(s[1..])
      case None => None
      case Some(at) => Some(at + 1)
  }

  /** A block at the start of the text, and the text after it. */
  datatype Match = Match(block: Block, rest: string)

  /** From the opening fence on: its language, the code, and the closing fence. */
  function MatchFenced(path: string, fence: string): (m: Option<Match>)
    ensures m.Some? ==> |m.value.rest| < |fence|
  {
    if !StartsWith(fence, FENCE) then None
    else
      var line := DropWhile(fence[|FENCE|..], IsAlnum);
      if |line| == 0 || line[0] != '\n' then None
      else
        var body := line[1..];
        match FindClosing(body)
        case None => None
        case Some(at) => Some(Match(Block(path, body[..at]), body[at + |CLOSING|..]))
  }

  function MatchHere(s: string): (m: Option<Match>)
    ensures m.Some? ==> |m.value.rest| < |s|
  {
    if !StartsWith(s, HEADER) then None
    else
      var named := DropWhile(s[|HEADER|..], IsSpace);
      var path := TakeWhile(named, IsPathChar);
      var bracket := named[|path|..];
      if path == "" || |bracket| == 0 || bracket[0] != ']' then None
      else MatchFenced(path, DropWhile(bracket[1..], IsSpace))
  }

  /** All blocks, left to right, each search resuming after the block before. */
  function FindBlocks(s: string): seq<Block>
    decreases |s|
  {
    match MatchHere(s)
    case Some(m) => [m.block] + FindBlocks(m.rest)
    case None => if |s| == 0 then [] else FindBlocks(s[1..])
  }

  // ---------- Rendering ----------

  /** A block in the format agents are asked for, followed by the rest of the answer. */
  function Render(b: Block, language: string, rest: string): string {
    HEADER + (" " + (b.path + ("]" + ("\n" + Fenced(b.code, language, rest)))))
  }

  function Fenced(code: string, language: string, rest: string): string {
    FENCE + (language + ("\n" + (code + CLOSING + rest)))
  }

  predicate Closed(code: string) {
    forall i :: 0 <= i <= |code| ==> !StartsWith(code[i..], CLOSING)
  }

  predicate Plain(prose: string) {
    forall i :: 0 <= i <= |prose| ==> !StartsWith(prose[i..], HEADER)
  }

  predicate Renderable(b: Block, language: string) {
    && |b.path| > 0 && (forall i :: 0 <= i < |b.path| ==> IsPathChar(b.path[i]))
    && (forall i :: 0 <= i < |language| ==> IsAlnum(language[i]))
  }

  lemma {:induction false} TakesAll(run: string, rest: string, kind: char -> bool)
    requires forall i :: 0 <= i < |run| ==> kind(run[i])
    requires |rest| > 0 ==> !kind(rest[0])
    ensures TakeWhile(run + rest, kind) == run && DropWhile(run + rest, kind) == rest
  {
    if |run| > 0 {
      assert (run + rest)[1..] == run[1..] + rest;
      TakesAll(run[1..], rest, kind);
    } else {
      assert run + rest == rest;
    }
  }

  /** Code with a closing fence after it is closed at its end, or earlier if it holds one itself. */
  lemma ClosesAtEnd(code: string, rest: string)
    ensures FindClosing(code + CLOSING + rest).Some?
    ensures FindClosing(code + CLOSING + rest) == Some(|code|) <==> Closed(code)
    ensures FindClosing(code + CLOSING + rest).value <= |code|
  {
    var s := code + CLOSING + rest;
    assert s[|code|..] == CLOSING + rest;
    assert StartsWith(s[|code|..], CLOSING);
    forall i | 0 <= i < |code| ensures StartsWith(s[i..], CLOSING) <==> StartsWith(code[i..], CLOSING) {
      if i + |CLOSING| <= |code| {
        assert s[i..][..|CLOSING|] == code[i..][..|CLOSING|];
      } else {
        assert s[i..][|code| - i] == '\n';
        assert CLOSING[|code| - i] == '`';
      }
    }
    assert !StartsWith(code[|code|..], CLOSING);
  }

  /** What matching a block's fence must give: its code cut at the first closing fence. */
  ghost predicate MatchesBlock(m: Option<Match>, b: Block, rest: string) {
    && m.Some? && m.value.block.path == b.path
    && (m.value == Match(b, rest) <==> Closed(b.code))
    && (m.value.block.code == b.code <==> Closed(b.code))
  }

  lemma MatchesFenced(b: Block, language: string, rest: string)
    requires Renderable(b, language)
    ensures MatchesBlock(MatchFenced(b.path, Fenced(b.code, language, rest)), b, rest)
  {
    var body := b.code + CLOSING + rest;
    var line := "\n" + body;
    var fence := Fenced(b.code, language, rest);
    assert StartsWith(fence, FENCE) && fence[|FENCE|..] == language + line;
    TakesAll(language, line, IsAlnum);
    assert line[1..] == body;
    ClosesAtEnd(b.code, rest);
    hide Closed, FindClosing;
    var at := FindClosing(body).value;
    assert |body[..at]| == at;
    if at == |b.code| {
      assert body[..|b.code|] == b.code;
      assert body[|b.code| + |CLOSING|..] == rest;
    }
  }

  lemma MatchesHeader(path: string, fence: string)
    requires |path| > 0 && forall i :: 0 <= i < |path| ==> IsPathChar(path[i])
    requires |fence| > 0 && !IsSpace(fence[0])
    ensures MatchHere(HEADER + (" " + (path + ("]" + ("\n" + fence))))) == MatchFenced(path, fence)
  {
    hide MatchFenced;
    var bracket := "]" + ("\n" + fence);
    var named := path + bracket;
    var s := HEADER + (" " + named);
    assert StartsWith(s, HEADER) && s[|HEADER|..] == " " + named;
    TakesAll(" ", named, IsSpace);
    TakesAll(path, bracket, IsPathChar);
    assert bracket[1..] == "\n" + fence;
    TakesAll("\n", fence, IsSpace);
  }

  /** A rendered block is matched where it starts, its code cut at the first closing fence. */
  lemma MatchesRendered(b: Block, language: string, rest: string)
    requires Renderable(b, language)
    ensures MatchesBlock(MatchHere(Render(b, language, rest)), b, rest)
  {
    MatchesFenced(b, language, rest);
    MatchesHeader(b.path, Fenced(b.code, language, rest));
  }

  lemma NoStraddle(prose: string, rest: string)
    requires |prose| > 0 && !StartsWith(prose, HEADER) && (rest == "" || rest[0] == '[')
    ensures !StartsWith(prose + rest, HEADER)
  {
    var s := prose + rest;
    assert forall k :: 0 < k < |HEADER| ==> HEADER[k] != '[';
    if |prose| >= |HEADER| {
      assert s[..|HEADER|] == prose[..|HEADER|];
    } else if rest == "" {
      assert s == prose;
    } else if |s| >= |HEADER| {
      assert s[..|HEADER|][|prose|] == '[';
    }
  }

  lemma {:induction false} SkipsPlain(prose: string, rest: string)
    requires Plain(prose) && (rest == "" || rest[0] == '[')
    ensures FindBlocks(prose + rest) == FindBlocks(rest)
    decreases |prose|
  {
    if |prose| > 0 {
      var s := prose + rest;
      assert prose[0..] == prose;
      NoStraddle(prose, rest);
      assert s[1..] == prose[1..] + rest;
      assert forall i :: 0 <= i <= |prose[1..]| ==> prose[1..][i..] == prose[i + 1..];
      SkipsPlain(prose[1..], rest);
    } else {
      assert prose + rest == rest;
    }
  }

  /** Prose, then a block. */
  datatype Piece = Piece(prose: string, block: Block, language: string)

  predicate Presentable(p: Piece) {
    Plain(p.prose) && Renderable(p.block, p.language) && Closed(p.block.code)
  }

  function RenderAll(pieces: seq<Piece>, ending: string): string {
    if |pieces| == 0 then ending
    else pieces[0].prose + Render(pieces[0].block, pieces[0].language, RenderAll(pieces[1..], ending))
  }

  function Blocks(pieces: seq<Piece>): seq<Block> {
    if |pieces| == 0 then [] else [pieces[0].block] + Blocks(pieces[1..])
  }

  /** The parser inverts the format: blocks with any prose between them come back in order, and nothing else does. */
  lemma {:induction false} ParserInvertsRenderer(pieces: seq<Piece>, ending: string)
    requires (forall p :: p in pieces ==> Presentable(p)) && Plain(ending)
    ensures FindBlocks(RenderAll(pieces, ending)) == Blocks(pieces)
  {
    if |pieces| == 0 {
      SkipsPlain(ending, "");
      assert ending + "" == ending;
    } else {
      var p, rest := pieces[0], RenderAll(pieces[1..], ending);
      hide FindClosing, MatchHere, Plain, Closed, Renderable;
      var rendered := Render(p.block, p.language, rest);
      assert p in pieces && rendered[0] == '[';
      SkipsPlain(p.prose, rendered);
      MatchesRendered(p.block, p.language, rest);
      ParserInvertsRenderer(pieces[1..], ending);
    }
  }

  /** A block comes back whole exactly when its code holds no newline followed by three backticks. */
  lemma RoundTripExactlyWhenClosed(b: Block, language: string)
    requires Renderable(b, language)
    ensures FindBlocks(Render(b, language, "")) == [b] <==> Closed(b.code)
    ensures |FindBlocks(Render(b, language, ""))| > 0
    ensures FindBlocks(Render(b, language, ""))[0].code == b.code <==> Closed(b.code)
  {
    hide FindBlocks, Render;
    MatchesRendered(b, language, "");
    FirstBlock(Render(b, language, ""), b);
  }

  lemma FirstBlock(s: string, b: Block)
    requires MatchesBlock(MatchHere(s), b, "")
    ensures FindBlocks(s) == [b] <==> Closed(b.code)
    ensures |FindBlocks(s)| > 0
    ensures FindBlocks(s)[0].code == b.code <==> Closed(b.code)
  {
    hide MatchHere, Closed;
    var m := MatchHere(s).value;
    assert FindBlocks(s) == [m.block] + FindBlocks(m.rest);
    assert FindBlocks(s)[0] == m.block && [b][0] == b;
    if Closed(b.code) {
      NothingToMatch();
      assert FindBlocks(m.rest) == [];
    }
  }

  lemma NothingToMatch()
    ensures MatchHere("") == None
  {
  }
}
