/**
 * scripts/source-text.ts: the string-aware comment stripper two source gates share.
 * A declarative lexer cuts a source into regions; the loop is proved to keep exactly the
 * text of the regions that are not comments.
 */
module SourceText {
  import opened Text

  datatype Region =
    | Plain(c: char)               // one character of code
    | Quoted(text: string)         // a string literal, quotes included
    | LineComment(text: string)    // from // up to, not including, the line break
    | BlockComment(text: string)   // from /* to */, or to the end of an unclosed one

  predicate IsQuote(c: char) {
    c == '"' || c == '\'' || c == '`'
  }

  predicate OpensComment(s: string) {
    |s| >= 2 && s[0] == '/' && (s[1] == '/' || s[1] == '*')
  }

  predicate ClosesBlock(s: string, k: nat) {
    k + 1 < |s| && s[k] == '*' && s[k + 1] == '/'
  }

  // ----- the declarative lexer: what a correct cut into regions is -----

  /** `body` runs to its first unescaped `quote` and ends with it. */
  predicate ClosedBody(body: string, quote: char) {
    body != "" &&
    if body[0] == '\\' then |body| >= 2 && ClosedBody(body[2..], quote)
    else if body[0] == quote then |body| == 1
    else ClosedBody(body[1..], quote)
  }

  /** `body` holds no unescaped `quote`; a lone backslash may end it. */
  predicate OpenBody(body: string, quote: char) {
    body == "" ||
    if body[0] == '\\' then |body| == 1 || OpenBody(body[2..], quote)
    else body[0] != quote && OpenBody(body[1..], quote)
  }

  function RegionText(r: Region): string {
    match r
    case Plain(c) => [c]
    case Quoted(t) => t
    case LineComment(t) => t
    case BlockComment(t) => t
  }

  function TextOf(rs: seq<Region>): string {
    if rs == [] then "" else RegionText(rs[0]) + TextOf(rs[1..])
  }

  /** `r` is a whole region when the text after it is `rest`. */
  ghost predicate RegionFits(r: Region, rest: string) {
    match r
    case Plain(c) => !IsQuote(c) && !OpensComment([c] + rest)
    case Quoted(t) =>
      t != "" && IsQuote(t[0]) &&
      (ClosedBody(t[1..], t[0]) || (OpenBody(t[1..], t[0]) && rest == ""))
    case LineComment(t) =>
      |t| >= 2 && t[0] == '/' && t[1] == '/' && '\n' !in t && (rest == "" || rest[0] == '\n')
    case BlockComment(t) =>
      |t| >= 2 && t[0] == '/' && t[1] == '*' &&
      ((|t| >= 4 && ClosesBlock(t, |t| - 2) && forall k :: 2 <= k < |t| - 2 ==> !ClosesBlock(t, k))
       || (rest == "" && forall k :: 2 <= k < |t| ==> !ClosesBlock(t, k)))
  }

  ghost predicate WellLexed(rs: seq<Region>) {
    rs == [] || (RegionFits(rs[0], TextOf(rs[1..])) && WellLexed(rs[1..]))
  }

  predicate IsComment(r: Region) {
    r.LineComment? || r.BlockComment?
  }

  function WithoutComments(rs: seq<Region>): (kept: seq<Region>)
    ensures forall r :: r in kept <==> r in rs && !IsComment(r)
  {
    if rs == [] then []
    else if IsComment(rs[0]) then WithoutComments(rs[1..])
    else [rs[0]] + WithoutComments(rs[1..])
  }

  function Strings(rs: seq<Region>): seq<string> {
    if rs == [] then []
    else (if rs[0].Quoted? then [rs[0].text] else []) + Strings(rs[1..])
  }

  /** Each literal as often as it is there. */
  lemma {:induction false} StringsAreTheLiterals(rs: seq<Region>, text: string)
    ensures multiset(Strings(rs))[text] == multiset(rs)[Quoted(text)]
  {
    if rs != [] {
      StringsAreTheLiterals(rs[1..], text);
      assert rs == [rs[0]] + rs[1..];
      assert multiset(rs)[Quoted(text)] == multiset([rs[0]])[Quoted(text)] + multiset(rs[1..])[Quoted(text)];
      hide Strings;
      StringsStep(rs, text);
    }
  }

  lemma StringsStep(rs: seq<Region>, text: string)
    requires rs != []
    ensures multiset(Strings(rs))[text] == (if rs[0] == Quoted(text) then 1 else 0) + multiset(Strings(rs[1..]))[text]
  {
  }

  // ----- an executable cut -----

  /** How much of `s`, just after an opening `quote`, still belongs to the string. */
  function BodyLength(s: string, quote: char): (n: nat)
    ensures n <= |s|
  {
    if s == "" then 0
    else if s[0] == '\\' then (if |s| == 1 then 1 else 2 + BodyLength(s[2..], quote))
    else if s[0] == quote then 1
    else 1 + BodyLength(s[1..], quote)
  }

  function LineLength(s: string): (n: nat)
    ensures n <= |s|
    ensures forall k :: 0 <= k < n ==> s[k] != '\n'
    ensures n == |s| || s[n] == '\n'
  {
    if s == "" || s[0] == '\n' then 0 else 1 + LineLength(s[1..])
  }

  /** Index of the first block closer at or after `k`, or the length when there is none. */
  function BlockEnd(s: string, k: nat): (n: nat)
    requires k <= |s|
    ensures k <= n <= |s|
    ensures forall j :: k <= j < n ==> !ClosesBlock(s, j)
    ensures n == |s| || ClosesBlock(s, n)
    decreases |s| - k
  {
    if k == |s| || ClosesBlock(s, k) then k else BlockEnd(s, k + 1)
  }

  function FirstRegion(s: string): (r: Region)
    requires s != ""
    ensures 1 <= |RegionText(r)| && RegionText(r) <= s
  {
    if IsQuote(s[0]) then Quoted(s[..1 + BodyLength(s[1..], s[0])])
    else if !OpensComment(s) then Plain(s[0])
    else if s[1] == '/' then LineComment(s[..LineLength(s)])
    else
      var e := BlockEnd(s, 2);
      BlockComment(if e == |s| then s else s[..e + 2])
  }

  function Lex(s: string): (rs: seq<Region>) {
    if s == "" then []
    else var r := FirstRegion(s); [r] + Lex(s[|RegionText(r)|..])
  }

  /** The text that stays. */
  function Stripped(s: string): string {
    TextOf(WithoutComments(Lex(s)))
  }

  // ----- Lex is the one correct cut -----

  lemma {:induction false} BodyLengthFits(s: string, quote: char)
    ensures var b := s[..BodyLength(s, quote)];
            ClosedBody(b, quote) || (OpenBody(b, quote) && b == s)
  {
    if s == "" {
    } else if s[0] == '\\' {
      if |s| >= 2 {
        BodyLengthFits(s[2..], quote);
        var b := s[..BodyLength(s, quote)];
        assert b[2..] == s[2..][..BodyLength(s[2..], quote)];
        assert s == s[..2] + s[2..];
      }
    } else if s[0] != quote {
      BodyLengthFits(s[1..], quote);
      var b := s[..BodyLength(s, quote)];
      assert b[1..] == s[1..][..BodyLength(s[1..], quote)];
      assert s == s[..1] + s[1..];
    }
  }

  lemma {:induction false} ClosedBodyLength(body: string, quote: char, rest: string)
    requires ClosedBody(body, quote)
    ensures BodyLength(body + rest, quote) == |body|
  {
    if body[0] == '\\' {
      ClosedBodyLength(body[2..], quote, rest);
      assert (body + rest)[2..] == body[2..] + rest;
    } else if body[0] != quote {
      ClosedBodyLength(body[1..], quote, rest);
      assert (body + rest)[1..] == body[1..] + rest;
    }
  }

  lemma {:induction false} OpenBodyLength(body: string, quote: char)
    requires OpenBody(body, quote)
    ensures BodyLength(body, quote) == |body|
  {
    if body != "" {
      if body[0] == '\\' {
        if |body| >= 2 { OpenBodyLength(body[2..], quote); }
      } else {
        OpenBodyLength(body[1..], quote);
      }
    }
  }

  lemma FirstRegionFits(s: string)
    requires s != ""
    ensures var r := FirstRegion(s); RegionFits(r, s[|RegionText(r)|..])
  {
    var r := FirstRegion(s);
    var t := RegionText(r);
    assert s == t + s[|t|..];
    if r.Quoted? {
      BodyLengthFits(s[1..], s[0]);
      assert t[1..] == s[1..][..BodyLength(s[1..], s[0])];
    } else if r.BlockComment? {
      forall k | 2 <= k < |t| && ClosesBlock(t, k) ensures ClosesBlock(s, k) {}
    }
  }

  /** The executable cut is a correct cut of the whole text. */
  lemma {:induction false} LexIsWellLexed(s: string)
    ensures TextOf(Lex(s)) == s && WellLexed(Lex(s))
  {
    if s != "" {
      var r := FirstRegion(s);
      var rest := s[|RegionText(r)|..];
      LexIsWellLexed(rest);
      FirstRegionFits(s);
      assert Lex(s)[1..] == Lex(rest);
      assert s == RegionText(r) + rest;
    }
  }

  lemma FittingRegionIsFirst(r: Region, rest: string)
    requires RegionFits(r, rest)
    ensures RegionText(r) != "" && FirstRegion(RegionText(r) + rest) == r
  {
    var t := RegionText(r);
    var s := t + rest;
    match r
    case Plain(c) =>
      assert s == [c] + rest;
    case Quoted(_) =>
      assert s[1..] == t[1..] + rest;
      if ClosedBody(t[1..], t[0]) {
        ClosedBodyLength(t[1..], t[0], rest);
      } else {
        OpenBodyLength(t[1..], t[0]);
        assert s == t;
      }
      assert s[..|t|] == t;
    case LineComment(_) =>
      var n := LineLength(s);
      assert n == |t| by {
        assert forall k :: 0 <= k < |t| ==> s[k] == t[k] && t[k] in t;
        assert rest != "" ==> s[|t|] == '\n';
      }
    case BlockComment(_) =>
      var e := BlockEnd(s, 2);
      if |t| >= 4 && ClosesBlock(t, |t| - 2) {
        assert ClosesBlock(s, |t| - 2);
        forall k | 2 <= k < |t| - 2 ensures !ClosesBlock(s, k) {
          assert ClosesBlock(s, k) == ClosesBlock(t, k);
        }
        assert e == |t| - 2;
        assert s[..|t|] == t;
      } else {
        assert s == t;
      }
  }

  lemma LexOfRegion(r: Region, rest: string)
    requires RegionFits(r, rest)
    ensures Lex(RegionText(r) + rest) == [r] + Lex(rest)
  {
    FittingRegionIsFirst(r, rest);
    assert (RegionText(r) + rest)[|RegionText(r)|..] == rest;
  }

  /** No other cut is correct. */
  lemma {:induction false} WellLexedIsLex(rs: seq<Region>)
    requires WellLexed(rs)
    ensures Lex(TextOf(rs)) == rs
  {
    if rs != [] {
      WellLexedIsLex(rs[1..]);
      LexOfRegion(rs[0], TextOf(rs[1..]));
      assert rs == [rs[0]] + rs[1..];
    }
  }

  // ----- stripping -----

  lemma {:induction false} FirstCharacterStays(rs: seq<Region>, c: char)
    requires WellLexed(rs)
    requires TextOf(WithoutComments(rs)) != "" && TextOf(WithoutComments(rs))[0] == c
    requires rs != [] && !IsComment(rs[0])
    ensures TextOf(rs) != "" && TextOf(rs)[0] == c
  {}

  /** Taking the comments out leaves a correct cut: nothing joins into a new region. */
  lemma {:induction false} StrippingKeepsWellLexed(rs: seq<Region>)
    requires WellLexed(rs)
    ensures WellLexed(WithoutComments(rs))
  {
    if rs != [] {
      var tail := rs[1..];
      StrippingKeepsWellLexed(tail);
      if !IsComment(rs[0]) {
        var kept := WithoutComments(tail);
        assert WithoutComments(rs)[1..] == kept;
        if TextOf(tail) == "" {
          EmptyTextIsNoRegions(tail);
        } else if rs[0].Plain? && rs[0].c == '/' && TextOf(kept) != "" {
          assert !IsComment(tail[0]) by {
            assert TextOf(tail) != "" && RegionText(tail[0]) != "";
          }
          FirstCharacterStays(tail, TextOf(kept)[0]);
        }
      }
    }
  }

  lemma EmptyTextIsNoRegions(rs: seq<Region>)
    requires WellLexed(rs) && TextOf(rs) == ""
    ensures rs == []
  {
    if rs != [] { FittingRegionIsFirst(rs[0], TextOf(rs[1..])); }
  }

  lemma {:induction false} StrippingTwiceDropsNothing(rs: seq<Region>)
    ensures WithoutComments(WithoutComments(rs)) == WithoutComments(rs)
    ensures Strings(WithoutComments(rs)) == Strings(rs)
  {
    if rs != [] {
      StrippingTwiceDropsNothing(rs[1..]);
      if !IsComment(rs[0]) {
        assert WithoutComments(rs)[1..] == WithoutComments(rs[1..]);
      }
    }
  }

  /** What the output lexes to: the input's regions, comments gone. */
  lemma StrippedLexes(s: string)
    ensures Lex(Stripped(s)) == WithoutComments(Lex(s))
  {
    LexIsWellLexed(s);
    StrippingKeepsWellLexed(Lex(s));
    WellLexedIsLex(WithoutComments(Lex(s)));
  }

  /** Every string literal comes through unchanged and in order. */
  lemma StringsSurvive(s: string)
    ensures Strings(Lex(Stripped(s))) == Strings(Lex(s))
  {
    StrippedLexes(s);
    StrippingTwiceDropsNothing(Lex(s));
  }

  /** No comment is left, not even one made by joining what stood around a removed one. */
  lemma NoCommentRemains(s: string)
    ensures forall r :: r in Lex(Stripped(s)) ==> !IsComment(r)
  {
    StrippedLexes(s);
  }

  lemma StripIsIdempotent(s: string)
    ensures Stripped(Stripped(s)) == Stripped(s)
  {
    StrippedLexes(s);
    StrippingTwiceDropsNothing(Lex(s));
  }

  /** For any cut a reader may bring, if it is correct then its kept text is the output. */
  lemma AnyCorrectCutGivesOutput(s: string, rs: seq<Region>)
    requires WellLexed(rs) && TextOf(rs) == s
    ensures Stripped(s) == TextOf(WithoutComments(rs))
  {
    WellLexedIsLex(rs);
  }

  // ----- the loop -----

  /** The output still to come from `s`, with `quote` the string the loop is inside. */
  ghost function Pending(s: string, quote: Option<char>): string {
    match quote
    case None => Stripped(s)
    case Some(q) => var n := BodyLength(s, q); s[..n] + Stripped(s[n..])
  }

  lemma StrippedStep(s: string)
    requires s != ""
    ensures var r := FirstRegion(s);
            var rest := Stripped(s[|RegionText(r)|..]);
            Stripped(s) == if IsComment(r) then rest else RegionText(r) + rest
  {}

  lemma QuoteStartsString(s: string)
    requires s != "" && IsQuote(s[0])
    ensures var r := FirstRegion(s); !IsComment(r) && RegionText(r) == s[..1 + BodyLength(s[1..], s[0])]
  {
    hide BodyLength;
  }

  lemma QuoteOpens(s: string)
    requires s != "" && IsQuote(s[0])
    ensures Pending(s, None) == [s[0]] + Pending(s[1..], Some(s[0]))
  {
    hide Stripped, BodyLength, FirstRegion, IsComment;
    StrippedStep(s);
    QuoteStartsString(s);
    var n := BodyLength(s[1..], s[0]);
    HeadAndBody(s, n);
    hide IsQuote;
    assert [s[0]] + (s[1..][..n] + Stripped(s[1..][n..])) == [s[0]] + s[1..][..n] + Stripped(s[1..][n..]);
  }

  lemma HeadAndBody(s: string, n: nat)
    requires s != "" && n <= |s| - 1
    ensures s[1..][n..] == s[1 + n..] && s[..1 + n] == [s[0]] + s[1..][..n]
  {}

  lemma BodyGoesOn(s: string, q: char)
    requires s != "" && s[0] != q && s[0] != '\\'
    ensures Pending(s, Some(q)) == [s[0]] + Pending(s[1..], Some(q))
  {
    hide Stripped;
  }

  lemma BodyEscapes(s: string, q: char)
    requires |s| >= 2 && s[0] == '\\'
    ensures Pending(s, Some(q)) == s[..2] + Pending(s[2..], Some(q))
  {
    hide Stripped;
    var n := BodyLength(s[2..], q);
    assert BodyLength(s, q) == 2 + n;
    hide BodyLength;
    PairAndBody(s, n);
    assert s[..2] + (s[2..][..n] + Stripped(s[2..][n..])) == s[..2] + s[2..][..n] + Stripped(s[2..][n..]);
  }

  lemma PairAndBody(s: string, n: nat)
    requires |s| >= 2 && n <= |s| - 2
    ensures s[2..][n..] == s[2 + n..] && s[..2 + n] == s[..2] + s[2..][..n]
  {}

  lemma BodyCloses(s: string, q: char)
    requires s != "" && s[0] == q && q != '\\'
    ensures Pending(s, Some(q)) == [q] + Pending(s[1..], None)
  {
    hide Stripped;
  }

  lemma CommentGoes(s: string)
    requires OpensComment(s)
    ensures s[1] == '/' ==> Pending(s, None) == Pending(s[LineLength(s)..], None)
    ensures s[1] == '*' ==>
              var e := BlockEnd(s, 2);
              Pending(s, None) == Pending(if e == |s| then "" else s[e + 2..], None)
  {
    StrippedStep(s);
  }

  lemma CodeStays(s: string)
    requires s != "" && !IsQuote(s[0]) && !OpensComment(s)
    ensures Pending(s, None) == [s[0]] + Pending(s[1..], None)
  {
    StrippedStep(s);
  }

  // ----- in characters -----

  lemma {:induction false} BodyPasses(body: string, rest: string, q: char)
    requires q !in body && '\\' !in body
    ensures Pending(body + rest, Some(q)) == body + Pending(rest, Some(q))
  {
    hide Pending;
    if body == "" {
      assert "" + rest == rest;
    } else {
      var s := body + rest;
      assert body[0] in body && s[0] == body[0] && s[1..] == body[1..] + rest;
      BodyGoesOn(s, q);
      BodyPasses(body[1..], rest, q);
      assert body == [body[0]] + body[1..];
    }
  }

  /** A string passes whole, whatever it holds: in double quotes, single quotes or backticks, escapes and all. */
  lemma StringPasses(q: char, body: string, escaped: char, more: string, rest: string)
    requires q == '"' || q == '\'' || q == '`'
    requires q !in body && '\\' !in body && q !in more && '\\' !in more
    ensures Stripped([q] + body + [q] + rest) == [q] + body + [q] + Stripped(rest)
    ensures var text := [q] + body + ['\\', escaped] + more + [q]; Stripped(text + rest) == text + Stripped(rest)
  {
    hide Pending, Stripped;
    PendingCode([q] + body + [q] + rest);
    PendingCode(rest);
    QuoteOpens([q] + (body + ([q] + rest)));
    assert [q] + body + [q] + rest == [q] + (body + ([q] + rest));
    assert ([q] + (body + ([q] + rest)))[1..] == body + ([q] + rest);
    BodyPasses(body, [q] + rest, q);
    BodyCloses([q] + rest, q);
    assert ([q] + rest)[1..] == rest;
    var tail := more + ([q] + rest);
    var text := [q] + body + ['\\', escaped] + more + [q];
    PendingCode(text + rest);
    assert text + rest == [q] + (body + (['\\', escaped] + tail));
    QuoteOpens(text + rest);
    assert (text + rest)[1..] == body + (['\\', escaped] + tail);
    BodyPasses(body, ['\\', escaped] + tail, q);
    BodyEscapes(['\\', escaped] + tail, q);
    assert (['\\', escaped] + tail)[2..] == tail && (['\\', escaped] + tail)[..2] == ['\\', escaped];
    BodyPasses(more, [q] + rest, q);
  }

  lemma PendingCode(s: string)
    ensures Pending(s, None) == Stripped(s)
  {}

  /** Two slashes hide the rest of the line, but not its end. */
  lemma LineCommentGoes(line: string, rest: string)
    requires '\n' !in line
    ensures Stripped("//" + line + "\n" + rest) == Stripped("\n" + rest)
    ensures Stripped("//" + line) == ""
  {
    var s, t := "//" + line + "\n" + rest, "//" + line;
    assert s[|t|] == '\n' && s[|t|..] == "\n" + rest && s[..|t|] == t;
    LineEnds(t, s);
    LineEnds(t, t);
    CommentGoes(s);
    CommentGoes(t);
    hide LineLength;
  }

  lemma LineEnds(line: string, s: string)
    requires '\n' !in line && line <= s && (|line| < |s| ==> s[|line|] == '\n')
    ensures LineLength(s) == |line|
  {
    assert forall k :: 0 <= k < |line| ==> s[k] == line[k] && line[k] in line;
  }

  /** A slash and a star hide all up to the first star and slash, or to the end. */
  lemma BlockCommentGoes(body: string, rest: string)
    requires forall k :: 0 <= k < |body| - 1 ==> !(body[k] == '*' && body[k + 1] == '/')
    ensures (body != "" ==> body[|body| - 1] != '*') ==> Stripped("/*" + body + "*/" + rest) == Stripped(rest)
    ensures Stripped("/*" + body) == ""
  {
    hide Pending, Stripped, BlockEnd, ClosesBlock;
    UnclosedBlock(body);
    NothingToStrip();
    if body == "" || body[|body| - 1] != '*' { ClosedBlock(body, rest); }
  }

  lemma ClosedBlock(body: string, rest: string)
    requires forall k :: 0 <= k < |body| - 1 ==> !(body[k] == '*' && body[k + 1] == '/')
    requires body == "" || body[|body| - 1] != '*'
    ensures Stripped("/*" + body + "*/" + rest) == Stripped(rest)
  {
    hide Pending, Stripped, BlockEnd;
    var s, n := "/*" + body + "*/" + rest, |body| + 2;
    PendingCode(s);
    PendingCode(rest);
    CommentGoes(s);
    assert forall k :: 2 <= k < n ==> s[k] == body[k - 2];
    assert s[n] == '*' && s[n + 1] == '/' && s[n + 2..] == rest;
    assert ClosesBlock(s, n);
    assert BlockEnd(s, 2) == n;
  }

  lemma UnclosedBlock(body: string)
    requires forall k :: 0 <= k < |body| - 1 ==> !(body[k] == '*' && body[k + 1] == '/')
    ensures Stripped("/*" + body) == Stripped("")
  {
    hide Pending, Stripped, BlockEnd;
    var s := "/*" + body;
    PendingCode(s);
    PendingCode("");
    CommentGoes(s);
    assert forall k :: 2 <= k < |s| ==> s[k] == body[k - 2];
    assert BlockEnd(s, 2) == |s|;
  }

  lemma NothingToStrip()
    ensures Stripped("") == ""
  {}

  /** Any other character of code passes, a lone slash among them. */
  lemma CodePasses(c: char, rest: string)
    requires c != '"' && c != '\'' && c != '`'
    requires c == '/' ==> rest == "" || (rest[0] != '/' && rest[0] != '*')
    ensures Stripped([c] + rest) == [c] + Stripped(rest)
  {
    CodeStays([c] + rest);
    assert ([c] + rest)[1..] == rest;
  }

  /** Loop invariant: what is written, then what is still to come, is the whole output. */
  ghost predicate Owed(source: string, i: nat, out: string, quote: Option<char>) {
    out + Pending(if i <= |source| then source[i..] else "", quote) == Stripped(source)
  }

  lemma OwedAtStart(source: string)
    ensures Owed(source, 0, "", None)
  {
    assert source[0..] == source;
  }

  lemma OwedAtEnd(source: string, i: nat, out: string, quote: Option<char>)
    requires Owed(source, i, out, quote) && |source| <= i
    ensures out == Stripped(source)
  {}

  lemma OwedInString(source: string, i: nat, out: string, q: char)
    requires i < |source| && Owed(source, i, out, Some(q)) && q != '\\'
    ensures source[i] == q ==> Owed(source, i + 1, out + [q], None)
    ensures source[i] != q && source[i] != '\\' ==> Owed(source, i + 1, out + [source[i]], Some(q))
  {
    hide Pending, Stripped;
    var s := source[i..];
    assert s[1..] == source[i + 1..];
    if source[i] == q { BodyCloses(s, q); } else if source[i] != '\\' { BodyGoesOn(s, q); }
  }

  lemma LoneEscape(s: string, q: char)
    requires s == "\\"
    ensures Pending(s, Some(q)) == s && Pending("", Some(q)) == ""
  {
    assert BodyLength(s, q) == 1 && s[..1] == s && s[1..] == "";
  }

  lemma OwedAfterPair(source: string, i: nat, out: string, q: char)
    requires i + 1 < |source| && Owed(source, i, out, Some(q)) && source[i] == '\\'
    ensures Owed(source, i + 2, out + source[i..i + 2], Some(q))
  {
    hide Pending, Stripped;
    var s := source[i..];
    BodyEscapes(s, q);
    assert s[2..] == source[i + 2..] && s[..2] == source[i..i + 2];
    assert out + source[i..i + 2] + Pending(s[2..], Some(q)) == out + (s[..2] + Pending(s[2..], Some(q)));
  }

  lemma OwedAfterLone(source: string, i: nat, out: string, q: char)
    requires i + 1 == |source| && Owed(source, i, out, Some(q)) && source[i] == '\\'
    ensures Owed(source, i + 2, out + source[i..i + 1], Some(q))
  {
    hide Pending, Stripped;
    var s := source[i..];
    assert s == source[i..i + 1];
    LoneEscape(s, q);
    assert out + s + "" == out + s;
  }

  lemma OwedAfterEscape(source: string, i: nat, out: string, q: char)
    requires i < |source| && Owed(source, i, out, Some(q)) && source[i] == '\\'
    ensures Owed(source, i + 2, out + source[i..if i + 1 < |source| then i + 2 else i + 1], Some(q))
  {
    hide Owed;
    if i + 1 < |source| { OwedAfterPair(source, i, out, q); } else { OwedAfterLone(source, i, out, q); }
  }

  lemma OwedInCode(source: string, i: nat, out: string)
    requires i < |source| && Owed(source, i, out, None) && !OpensComment(source[i..])
    ensures Owed(source, i + 1, out + [source[i]], if IsQuote(source[i]) then Some(source[i]) else None)
  {
    hide Pending, Stripped;
    var s := source[i..];
    assert s[1..] == source[i + 1..];
    if IsQuote(source[i]) { QuoteOpens(s); } else { CodeStays(s); }
  }

  lemma OwedAfterLine(source: string, i: nat, out: string)
    requires i + 1 < |source| && source[i] == '/' && source[i + 1] == '/'
    requires Owed(source, i, out, None)
    ensures Owed(source, i + LineLength(source[i..]), out, None)
  {
    hide Pending, Stripped;
    var s := source[i..];
    CommentGoes(s);
    assert s[LineLength(s)..] == source[i + LineLength(s)..];
  }

  lemma OwedAfterBlock(source: string, i: nat, out: string)
    requires i + 1 < |source| && source[i] == '/' && source[i + 1] == '*'
    requires Owed(source, i, out, None)
    ensures Owed(source, i + BlockEnd(source[i..], 2) + 2, out, None)
  {
    hide Pending, Stripped;
    var s := source[i..];
    var e := BlockEnd(s, 2);
    CommentGoes(s);
    if e < |s| { assert s[e + 2..] == source[i + e + 2..]; }
  }

  method StripComments(source: string) returns (out: string)
    ensures out == Stripped(source)
  {
    hide Owed, Stripped, BlockEnd, LineLength;
    out := "";
    var i := 0;
    var quote: Option<char> := None;
    OwedAtStart(source);
    while i < |source|
      invariant Owed(source, i, out, quote)
      invariant quote.Some? ==> quote.value != '\\'
      decreases |source| - i
    {
      var c := source[i];
      if quote.Some? {
        if c == '\\' {
          OwedAfterEscape(source, i, out, quote.value);
          out := out + source[i..if i + 1 < |source| then i + 2 else i + 1];
          i := i + 2;
          continue;
        }
        OwedInString(source, i, out, quote.value);
        out := out + [c];
        if c == quote.value {
          quote := None;
        }
        i := i + 1;
        continue;
      }
      if IsQuote(c) {
        OwedInCode(source, i, out);
        quote := Some(c);
        out := out + [c];
        i := i + 1;
        continue;
      }
      if c == '/' && i + 1 < |source| && source[i + 1] == '/' {
        OwedAfterLine(source, i, out);
        i := LineBreakFrom(source, i);
        continue;
      }
      if c == '/' && i + 1 < |source| && source[i + 1] == '*' {
        OwedAfterBlock(source, i, out);
        i := BlockCloserFrom(source, i);
        i := i + 2;
        continue;
      }
      OwedInCode(source, i, out);
      out := out + [c];
      i := i + 1;
    }
    OwedAtEnd(source, i, out, quote);
  }

  /** The inner loop that skips a line comment. */
  method LineBreakFrom(source: string, start: nat) returns (i: nat)
    requires start + 1 < |source| && source[start] != '\n'
    ensures i == start + LineLength(source[start..]) && start < i
  {
    i := start;
    ghost var s := source[start..];
    while i < |source| && source[i] != '\n'
      invariant start <= i <= |source|
      invariant forall k :: 0 <= k < i - start ==> s[k] != '\n'
    {
      i := i + 1;
    }
    assert LineLength(s) == i - start by {
      assert i < |source| ==> s[i - start] == '\n';
    }
  }

  /** The inner loop that skips a block comment; the end of the text when it never closes. */
  method BlockCloserFrom(source: string, start: nat) returns (i: nat)
    requires start + 1 < |source|
    ensures i == start + BlockEnd(source[start..], 2) && start < i
  {
    i := start + 2;
    ghost var s := source[start..];
    while i < |source| && !(source[i] == '*' && i + 1 < |source| && source[i + 1] == '/')
      invariant start + 2 <= i <= |source|
      invariant forall k :: 2 <= k < i - start ==> !ClosesBlock(s, k)
    {
      assert !ClosesBlock(s, i - start);
      i := i + 1;
    }
    assert BlockEnd(s, 2) == i - start by {
      assert i < |source| ==> ClosesBlock(s, i - start);
    }
  }
}
