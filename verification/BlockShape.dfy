/**
 * The file-block scanner against the shape it looks for, told in characters: exactly the texts of
 * that shape match, and the blocks found are the leftmost ones that do not overlap.
 */
module BlockShape {
  import opened BlockParser
  import opened Wrappers

  const LOWER := "abcdefghijklmnopqrstuvwxyz"
  const UPPER := "ABCDEFGHIJKLMNOPQRSTUVWXYZ"
  const DIGITS := "0123456789"

  lemma LowerExactly(c: char)
    ensures 'a' <= c <= 'z' <==> c in LOWER
  {
    assert forall i :: 0 <= i < 26 ==> LOWER[i] as int == 'a' as int + i;
    if 'a' <= c <= 'z' { assert LOWER[c as int - 'a' as int] == c; }
  }

  lemma UpperExactly(c: char)
    ensures 'A' <= c <= 'Z' <==> c in UPPER
  {
    assert forall i :: 0 <= i < 26 ==> UPPER[i] as int == 'A' as int + i;
    if 'A' <= c <= 'Z' { assert UPPER[c as int - 'A' as int] == c; }
  }

  lemma DigitExactly(c: char)
    ensures '0' <= c <= '9' <==> c in DIGITS
  {
    assert forall i :: 0 <= i < 10 ==> DIGITS[i] as int == '0' as int + i;
    if '0' <= c <= '9' { assert DIGITS[c as int - '0' as int] == c; }
  }

  /**
   * A language is letters and digits; a path may also hold underscores, hyphens, dots and slashes; and
   * between the parts of a block there may be blanks, tabs, line ends and separators.
   */
  lemma CharactersExactly(c: char)
    ensures IsAlnum(c) <==> c in LOWER || c in UPPER || c in DIGITS
    ensures IsPathChar(c) <==> c in LOWER || c in UPPER || c in DIGITS || c in "_-./"
    ensures IsSpace(c) <==> c == ' ' || c as int in {9, 10, 11, 12, 13, 28, 29, 30, 31}
  {
    LowerExactly(c);
    UpperExactly(c);
    DigitExactly(c);
  }

  /** What a header and the two fences are. */
  lemma MarkersExactly()
    ensures HEADER == "[FILE:" && FENCE == "```" && CLOSING == "\n```"
  {
  }

  /** A block from its header on: what may stand between its parts, and what follows it. */
  datatype Shape = Shape(gap: string, path: string, space: string, language: string, code: string, rest: string) {
    function Text(): string {
      HEADER + (gap + Named())
    }

    function Named(): string {
      path + Bracket()
    }

    function Bracket(): string {
      "]" + (space + Fenced(code, language, rest))
    }

    predicate Fits() {
      && (forall i :: 0 <= i < |gap| ==> IsSpace(gap[i])) && (forall i :: 0 <= i < |space| ==> IsSpace(space[i]))
      && path != "" && (forall i :: 0 <= i < |path| ==> IsPathChar(path[i]))
      && (forall i :: 0 <= i < |language| ==> IsAlnum(language[i])) && Closed(code)
    }
  }

  /** The shape in characters: header, path, bracket, fence, code and closing fence. */
  lemma TextExactly(x: Shape)
    ensures x.Text()
         == "[FILE:" + x.gap + x.path + "]" + x.space + "```" + x.language + "\n" + x.code + "\n```" + x.rest
  {
    MarkersExactly();
    assert Fenced(x.code, x.language, x.rest) == "```" + x.language + "\n" + x.code + "\n```" + x.rest;
    assert x.Bracket() == "]" + x.space + Fenced(x.code, x.language, x.rest);
    hide Fenced;
    assert x.Text() == "[FILE:" + x.gap + x.path + x.Bracket();
  }

  lemma FencedMatches(x: Shape)
    requires x.Fits()
    ensures MatchFenced(x.path, Fenced(x.code, x.language, x.rest)) == Some(Match(Block(x.path, x.code), x.rest))
  {
    MatchesFenced(Block(x.path, x.code), x.language, x.rest);
  }

  lemma HeaderMatches(x: Shape)
    requires x.Fits()
    ensures MatchHere(x.Text()) == MatchFenced(x.path, Fenced(x.code, x.language, x.rest))
  {
    hide MatchFenced, Closed;
    var fence := Fenced(x.code, x.language, x.rest);
    assert |fence| > 0 && fence[0] == '`';
    hide Fenced;
    assert StartsWith(x.Text(), HEADER) && x.Text()[|HEADER|..] == x.gap + x.Named();
    TakesAll(x.gap, x.Named(), IsSpace);
    TakesAll(x.path, x.Bracket(), IsPathChar);
    assert x.Bracket()[1..] == x.space + fence;
    TakesAll(x.space, fence, IsSpace);
  }

  /** Every text that begins with the shape matches, with the shape's path and code and the text after it. */
  lemma ShapeMatches(x: Shape)
    requires x.Fits()
    ensures MatchHere(x.Text()) == Some(Match(Block(x.path, x.code), x.rest))
  {
    hide MatchHere, MatchFenced, Shape.Fits, Shape.Text, Fenced;
    FencedMatches(x);
    HeaderMatches(x);
  }

  lemma Parts(s: string, kind: char -> bool)
    ensures s == TakeWhile(s, kind) + DropWhile(s, kind)
  {
  }

  lemma PrefixParts(s: string, prefix: string)
    requires StartsWith(s, prefix)
    ensures s == prefix + s[|prefix|..]
  {
  }

  lemma ClosedBefore(body: string, at: nat)
    requires at <= |body| && forall i :: 0 <= i < at ==> !StartsWith(body[i..], CLOSING)
    ensures Closed(body[..at])
  {
    var code := body[..at];
    forall i | 0 <= i <= |code| ensures !StartsWith(code[i..], CLOSING) {
      if i < at {
        assert code[i..] + body[at..] == body[i..];
        StartsLonger(code[i..], body[at..], CLOSING);
      }
    }
  }

  lemma StartsLonger(s: string, rest: string, prefix: string)
    ensures StartsWith(s, prefix) ==> StartsWith(s + rest, prefix)
  {
  }

  lemma CutAtClosing(body: string, at: nat)
    requires at <= |body| && StartsWith(body[at..], CLOSING)
    ensures at + |CLOSING| <= |body| && body == body[..at] + CLOSING + body[at + |CLOSING|..]
  {
    PrefixParts(body[at..], CLOSING);
    hide StartsWith, CLOSING;
    var n := |CLOSING|;
    assert |body[at..]| >= n;
    assert body[at..][n..] == body[at + n..];
    assert body == body[..at] + body[at..];
  }

  lemma FenceShape(path: string, fence: string) returns (language: string)
    requires MatchFenced(path, fence).Some?
    ensures var m := MatchFenced(path, fence).value;
            && fence == Fenced(m.block.code, language, m.rest) && m.block.path == path
            && (forall i :: 0 <= i < |language| ==> IsAlnum(language[i])) && Closed(m.block.code)
  {
    PrefixParts(fence, FENCE);
    language := TakeWhile(fence[|FENCE|..], IsAlnum);
    Parts(fence[|FENCE|..], IsAlnum);
    var line := DropWhile(fence[|FENCE|..], IsAlnum);
    var body := line[1..];
    assert line == "\n" + body;
    ClosedBefore(body, FindClosing(body).value);
    CutAtClosing(body, FindClosing(body).value);
    hide Closed, FindClosing, IsAlnum;
  }

  /** The parts of a text that matches, up to its fence. */
  lemma HeaderParts(s: string) returns (gap: string, path: string, space: string, fence: string)
    requires MatchHere(s).Some?
    ensures s == HEADER + (gap + (path + ("]" + (space + fence)))) && MatchHere(s) == MatchFenced(path, fence)
    ensures (forall i :: 0 <= i < |gap| ==> IsSpace(gap[i])) && (forall i :: 0 <= i < |space| ==> IsSpace(space[i]))
    ensures path != "" && forall i :: 0 <= i < |path| ==> IsPathChar(path[i])
  {
    hide MatchFenced, IsSpace, IsPathChar, HEADER;
    PrefixParts(s, HEADER);
    var headed := s[|HEADER|..];
    Parts(headed, IsSpace);
    gap := TakeWhile(headed, IsSpace);
    var named := DropWhile(headed, IsSpace);
    Parts(named, IsPathChar);
    path := TakeWhile(named, IsPathChar);
    var bracket := named[|path|..];
    Parts(bracket[1..], IsSpace);
    space, fence := TakeWhile(bracket[1..], IsSpace), DropWhile(bracket[1..], IsSpace);
    assert bracket == "]" + bracket[1..];
  }

  /** Every text that matches begins with the shape. */
  lemma MatchesHaveShape(s: string) returns (x: Shape)
    requires MatchHere(s).Some?
    ensures x.Fits() && s == x.Text() && MatchHere(s).value == Match(Block(x.path, x.code), x.rest)
  {
    hide MatchHere, MatchFenced, Closed, Fenced, IsSpace, IsPathChar, IsAlnum, HEADER;
    var m := MatchHere(s).value;
    var gap, path, space, fence := HeaderParts(s);
    var language := FenceShape(path, fence);
    x := Shape(gap, path, space, language, m.block.code, m.rest);
  }

  /** A text matches exactly if it begins with the shape, and then in one way only. */
  lemma MatchExactly(s: string, m: Match)
    ensures MatchHere(s) == Some(m)
       <==> exists x: Shape :: x.Fits() && s == x.Text() && m == Match(Block(x.path, x.code), x.rest)
  {
    hide MatchHere, Shape.Fits, Shape.Text;
    if MatchHere(s) == Some(m) {
      var x := MatchesHaveShape(s);
    }
    if x: Shape :| x.Fits() && s == x.Text() && m == Match(Block(x.path, x.code), x.rest) {
      ShapeMatches(x);
    }
  }

  // ---------- The blocks of a text ----------

  /** Where nothing matches there are no blocks. */
  lemma {:induction false} NoBlocks(s: string)
    requires forall i :: 0 <= i <= |s| ==> MatchHere(s[i..]).None?
    ensures FindBlocks(s) == []
    decreases |s|
  {
    hide MatchHere;
    assert s[0..] == s;
    if |s| > 0 {
      forall i | 0 <= i <= |s[1..]| ensures MatchHere(s[1..][i..]).None? {
        assert s[1..][i..] == s[i + 1..];
      }
      NoBlocks(s[1..]);
    }
  }

  /** The first block is at the first place that matches, and the others are those of the text after it. */
  lemma {:induction false} LeftmostBlock(s: string, k: nat)
    requires k <= |s| && MatchHere(s[k..]).Some?
    requires forall i :: 0 <= i < k ==> MatchHere(s[i..]).None?
    ensures var m := MatchHere(s[k..]).value; FindBlocks(s) == [m.block] + FindBlocks(m.rest)
    decreases |s|
  {
    hide MatchHere;
    assert s[0..] == s;
    if k > 0 {
      assert s[1..][k - 1..] == s[k..];
      forall i | 0 <= i < k - 1 ensures MatchHere(s[1..][i..]).None? {
        assert s[1..][i..] == s[i + 1..];
      }
      LeftmostBlock(s[1..], k - 1);
    }
  }
}
