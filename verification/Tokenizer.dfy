/** The command-line tokenizer of ui/app.js. */
module Tokenizer {
  /** The variables of smartSplit's loop. */
  datatype Lexer = Lexer(result: seq<string>, cur: string, inQ: bool, qc: char)

  const START: Lexer := Lexer([], "", false, ' ')

  /** One character. */
  function Feed(l: Lexer, c: char): Lexer {
    if l.inQ then
      if c == l.qc then l.(inQ := false) else l.(cur := l.cur + [c])
    else if c == '"' || c == '\'' then l.(inQ := true, qc := c)
    else if c == ' ' || c == '\t' then
      if l.cur != "" then l.(result := l.result + [l.cur], cur := "") else l
    else l.(cur := l.cur + [c])
  }

  function FeedAll(l: Lexer, s: string): Lexer
    decreases |s|
  {
    if s == "" then l else FeedAll(Feed(l, s[0]), s[1..])
  }

  function Finish(l: Lexer): seq<string> {
    if l.cur != "" then l.result + [l.cur] else l.result
  }

  lemma {:induction false} FeedConcat(l: Lexer, s: string, t: string)
    ensures FeedAll(l, s + t) == FeedAll(FeedAll(l, s), t)
    decreases |s|
  {
    if s == "" {
      assert s + t == t;
    } else {
      assert (s + t)[1..] == s[1..] + t;
      FeedConcat(Feed(l, s[0]), s[1..], t);
    }
  }

  method SmartSplit(str: string) returns (result: seq<string>)
    ensures result == Finish(FeedAll(START, str))
  {
    result := [];
    var cur, inQ, qc := "", false, ' ';
    for i := 0 to |str|
      invariant FeedAll(Lexer(result, cur, inQ, qc), str[i..]) == FeedAll(START, str)
    {
      var c := str[i];
      assert str[i..][1..] == str[i + 1..];
      if inQ {
        if c == qc {
          inQ := false;
        } else {
          cur := cur + [c];
        }
      } else if c == '"' || c == '\'' {
        inQ := true;
        qc := c;
      } else if c == ' ' || c == '\t' {
        if cur != "" {
          result := result + [cur];
          cur := "";
        }
      } else {
        cur := cur + [c];
      }
    }
    if cur != "" {
      result := result + [cur];
    }
  }

  // ---- what a command line may look like ----

  /** A stretch of a token: outside quotes, or between a pair of double or single quotes. */
  datatype Piece = Bare(text: string) | Double(text: string) | Single(text: string)

  /** A token, as the list of its pieces, and the blanks typed in front of it. */
  datatype Word = Word(gap: string, pieces: seq<Piece>)

  predicate Blank(s: string) { forall i :: 0 <= i < |s| ==> s[i] == ' ' || s[i] == '\t' }

  predicate PieceOk(p: Piece) {
    match p
    case Bare(t) => t != "" && forall i :: 0 <= i < |t| ==> t[i] !in " \t\"'"
    case Double(t) => '"' !in t
    case Single(t) => '\'' !in t
  }

  /** The piece as it is typed. */
  function Typed(p: Piece): string {
    match p
    case Bare(t) => t
    case Double(t) => "\"" + t + "\""
    case Single(t) => "'" + t + "'"
  }

  function TypedAll(pieces: seq<Piece>): string {
    if pieces == [] then "" else TypedAll(pieces[..|pieces| - 1]) + Typed(pieces[|pieces| - 1])
  }

  /** The text a token stands for. */
  function Text(pieces: seq<Piece>): string {
    if pieces == [] then "" else Text(pieces[..|pieces| - 1]) + pieces[|pieces| - 1].text
  }

  predicate PiecesOk(pieces: seq<Piece>) { forall i :: 0 <= i < |pieces| ==> PieceOk(pieces[i]) }

  /** Blanks before every token, and at least one of them between two tokens. */
  predicate LineOk(words: seq<Word>) { forall i :: 0 <= i < |words| ==> WordOk(words[i], i == 0) }

  predicate WordOk(w: Word, first: bool) { Blank(w.gap) && PiecesOk(w.pieces) && (!first ==> w.gap != "") }

  function Line(words: seq<Word>): string {
    if words == [] then "" else
      var w := words[|words| - 1];
      Line(words[..|words| - 1]) + w.gap + TypedAll(w.pieces)
  }

  /** A token of no text is no token. */
  function NonEmpty(text: string): seq<string> { if text == "" then [] else [text] }

  /** The texts of the tokens that have any. */
  function Texts(words: seq<Word>): seq<string> {
    if words == [] then [] else Texts(words[..|words| - 1]) + NonEmpty(Text(words[|words| - 1].pieces))
  }

  // ---- what the splitter makes of it ----

  lemma FeedOne(l: Lexer, c: char)
    ensures FeedAll(l, [c]) == Feed(l, c)
  {
    assert [c][1..] == "";
  }

  /** Between quotes every other character is taken as it is. */
  lemma {:induction false} InsideQuotes(l: Lexer, t: string)
    requires l.inQ && l.qc !in t
    ensures FeedAll(l, t) == l.(cur := l.cur + t)
    decreases |t|
  {
    if t == "" {
      assert l.cur + t == l.cur;
    } else {
      InsideQuotes(Feed(l, t[0]), t[1..]);
      assert (l.cur + [t[0]]) + t[1..] == l.cur + t;
    }
  }

  lemma {:induction false} OutsideQuotes(l: Lexer, t: string)
    requires !l.inQ && forall i :: 0 <= i < |t| ==> t[i] !in " \t\"'"
    ensures FeedAll(l, t) == l.(cur := l.cur + t)
    decreases |t|
  {
    if t == "" {
      assert l.cur + t == l.cur;
    } else {
      assert Feed(l, t[0]) == l.(cur := l.cur + [t[0]]);
      OutsideQuotes(Feed(l, t[0]), t[1..]);
      assert (l.cur + [t[0]]) + t[1..] == l.cur + t;
    }
  }

  lemma QuotedState(l: Lexer, q: char, t: string)
    requires !l.inQ && (q == '"' || q == '\'') && q !in t
    ensures FeedAll(l, [q] + t + [q]) == l.(cur := l.cur + t, qc := q)
  {
    FeedConcat(l, [q] + t, [q]);
    FeedConcat(l, [q], t);
    FeedOne(l, q);
    var open := l.(inQ := true, qc := q);
    InsideQuotes(open, t);
    FeedOne(open.(cur := l.cur + t), q);
  }

  /** The splitter is outside quotes, with these tokens finished and this text collected. */
  predicate Holds(l: Lexer, result: seq<string>, cur: string) { !l.inQ && l.result == result && l.cur == cur }

  lemma PieceState(l: Lexer, p: Piece)
    requires !l.inQ && PieceOk(p)
    ensures Holds(FeedAll(l, Typed(p)), l.result, l.cur + p.text)
  {
    match p
    case Bare(t) => OutsideQuotes(l, t);
    case Double(t) => QuotedState(l, '"', t);
    case Single(t) => QuotedState(l, '\'', t);
  }

  lemma {:induction false} PiecesState(l: Lexer, pieces: seq<Piece>)
    requires !l.inQ && l.cur == "" && PiecesOk(pieces)
    ensures Holds(FeedAll(l, TypedAll(pieces)), l.result, Text(pieces))
    decreases |pieces|
  {
    if pieces != [] {
      var n := |pieces| - 1;
      PiecesState(l, pieces[..n]);
      FeedConcat(l, TypedAll(pieces[..n]), Typed(pieces[n]));
      PieceState(FeedAll(l, TypedAll(pieces[..n])), pieces[n]);
    }
  }

  /** Blanks outside quotes finish the collected token, once. */
  lemma {:induction false} GapState(l: Lexer, gap: string)
    requires !l.inQ && Blank(gap)
    ensures FeedAll(l, gap) == if gap == "" then l else l.(result := Finish(l), cur := "")
    decreases |gap|
  {
    if gap != "" {
      var m := Feed(l, gap[0]);
      assert m == l.(result := Finish(l), cur := "");
      assert Blank(gap[1..]);
      GapState(m, gap[1..]);
    }
  }

  /** After the gap behind some finished words, or before the first, nothing is collected. */
  lemma GapEnds(l: Lexer, gap: string, texts: seq<string>)
    requires !l.inQ && Blank(gap) && Finish(l) == texts && (l.cur != "" ==> gap != "")
    ensures Holds(FeedAll(l, gap), texts, "")
  {
    GapState(l, gap);
  }

  /** One more word on the line. */
  lemma WordState(l: Lexer, line: string, w: Word, texts: seq<string>)
    requires l == FeedAll(START, line) && !l.inQ && Finish(l) == texts && (l.cur != "" ==> w.gap != "")
    requires Blank(w.gap) && PiecesOk(w.pieces)
    ensures Holds(FeedAll(START, line + w.gap + TypedAll(w.pieces)), texts, Text(w.pieces))
  {
    GapEnds(l, w.gap, texts);
    PiecesState(FeedAll(l, w.gap), w.pieces);
    FeedConcat(START, line + w.gap, TypedAll(w.pieces));
    FeedConcat(START, line, w.gap);
  }

  lemma ButLast(words: seq<Word>, n: nat)
    requires LineOk(words) && |words| == n + 1
    ensures LineOk(words[..n]) && WordOk(words[n], n == 0)
  {
  }

  lemma {:induction false} LineState(words: seq<Word>)
    requires LineOk(words)
    ensures var l := FeedAll(START, Line(words));
            !l.inQ && Finish(l) == Texts(words) && (words == [] ==> l.cur == "")
    decreases |words|
  {
    if words != [] {
      var n := |words| - 1;
      ButLast(words, n);
      LineState(words[..n]);
      var line, texts := Line(words[..n]), Texts(words[..n]);
      WordState(FeedAll(START, line), line, words[n], texts);
      EndsIn(FeedAll(START, Line(words)), texts, Text(words[n].pieces));
    }
  }

  lemma EndsIn(l: Lexer, texts: seq<string>, text: string)
    requires Holds(l, texts, text)
    ensures !l.inQ && Finish(l) == texts + NonEmpty(text)
  {
  }

  /** A line of tokens, each written in bare, double-quoted and single-quoted pieces and separated from the next by
      spaces and tabs, with blanks around them all, splits into exactly the texts of its tokens. */
  lemma SplitRecovers(words: seq<Word>, trailing: string)
    requires LineOk(words) && Blank(trailing)
    ensures Finish(FeedAll(START, Line(words) + trailing)) == Texts(words)
  {
    LineState(words);
    FeedConcat(START, Line(words), trailing);
    GapState(FeedAll(START, Line(words)), trailing);
  }

  /** A line that may end inside a token: in front of its last word some words, behind it perhaps a quote that is
      never closed, and what follows that. */
  datatype Reading = Reading(words: seq<Word>, last: Word, open: string)

  predicate ReadingOk(r: Reading) {
    && LineOk(r.words) && WordOk(r.last, r.words == [])
    && (r.open != "" ==> (r.open[0] == '"' || r.open[0] == '\'') && r.open[0] !in r.open[1..])
  }

  function Whole(r: Reading): string { Line(r.words) + r.last.gap + TypedAll(r.last.pieces) + r.open }

  /** A quote that is never closed takes the rest of the line into the token it stands in. */
  lemma SplitReading(r: Reading)
    requires ReadingOk(r)
    ensures Finish(FeedAll(START, Whole(r)))
            == Texts(r.words) + NonEmpty(Text(r.last.pieces) + if r.open == "" then "" else r.open[1..])
  {
    LineState(r.words);
    var line := Line(r.words) + r.last.gap + TypedAll(r.last.pieces);
    WordState(FeedAll(START, Line(r.words)), Line(r.words), r.last, Texts(r.words));
    FeedConcat(START, line, r.open);
    var l := FeedAll(START, line);
    if r.open != "" {
      InsideQuotes(Feed(l, r.open[0]), r.open[1..]);
    } else {
      assert l.cur + "" == l.cur;
    }
  }

  lemma ReadWord(words: seq<Word>, w: Word)
    requires LineOk(words) && WordOk(w, words == [])
    ensures LineOk(words + [w]) && Line(words + [w]) == Line(words) + w.gap + TypedAll(w.pieces)
  {
    assert (words + [w])[..|words|] == words;
  }

  lemma ReadPiece(w: Word, p: Piece, first: bool)
    requires WordOk(w, first) && PieceOk(p)
    ensures WordOk(w.(pieces := w.pieces + [p]), first)
    ensures TypedAll(w.pieces + [p]) == TypedAll(w.pieces) + Typed(p)
  {
    assert (w.pieces + [p])[..|w.pieces|] == w.pieces;
  }

  /** A whole piece more in the last word. */
  lemma ReadTyped(r: Reading, p: Piece) returns (t: Reading)
    requires ReadingOk(r) && PieceOk(p)
    ensures ReadingOk(t) && Whole(t) == Line(r.words) + r.last.gap + TypedAll(r.last.pieces) + Typed(p)
  {
    ReadPiece(r.last, p, r.words == []);
    t := Reading(r.words, r.last.(pieces := r.last.pieces + [p]), "");
    Joined(Line(r.words) + r.last.gap, TypedAll(r.last.pieces), Typed(p));
  }

  lemma Joined(a: string, b: string, c: string)
    ensures a + (b + c) + "" == a + b + c
  {
  }

  lemma Closed(open: string, c: char) returns (p: Piece)
    requires open != "" && open[0] == c && (c == '"' || c == '\'') && c !in open[1..]
    ensures PieceOk(p) && Typed(p) == open + [c]
  {
    p := if c == '"' then Double(open[1..]) else Single(open[1..]);
    assert open == [c] + open[1..];
  }

  lemma ReadClosed(r: Reading, c: char) returns (t: Reading)
    requires ReadingOk(r) && r.open != "" && c == r.open[0]
    ensures ReadingOk(t) && Whole(t) == Whole(r) + [c]
  {
    var p := Closed(r.open, c);
    t := ReadTyped(r, p);
  }

  lemma ReadBare(r: Reading, c: char) returns (t: Reading)
    requires ReadingOk(r) && r.open == "" && c !in " \t\"'"
    ensures ReadingOk(t) && Whole(t) == Whole(r) + [c]
  {
    t := ReadTyped(r, Bare([c]));
  }

  lemma JoinedGap(line: string, gap: string, c: char)
    ensures line + (gap + [c]) + "" + "" == line + gap + "" + "" + [c]
  {
  }

  /** A blank in front of the last word. */
  lemma ReadGap(r: Reading, c: char) returns (t: Reading)
    requires ReadingOk(r) && r.open == "" && r.last.pieces == [] && (c == ' ' || c == '\t')
    ensures ReadingOk(t) && Whole(t) == Whole(r) + [c]
  {
    t := r.(last := Word(r.last.gap + [c], []));
    JoinedGap(Line(r.words), r.last.gap, c);
  }

  /** A blank behind it begins another. */
  lemma ReadNext(r: Reading, c: char) returns (t: Reading)
    requires ReadingOk(r) && r.open == "" && (c == ' ' || c == '\t')
    ensures ReadingOk(t) && Whole(t) == Whole(r) + [c]
  {
    ReadWord(r.words, r.last);
    t := Reading(r.words + [r.last], Word([c], []), "");
    JoinedEnd(Line(t.words), c);
  }

  lemma JoinedEnd(line: string, c: char)
    ensures line + [c] + "" + "" == line + "" + [c]
  {
  }

  /** One more character at the end of a line. */
  lemma ReadMore(r: Reading, c: char) returns (t: Reading)
    requires ReadingOk(r)
    ensures ReadingOk(t) && Whole(t) == Whole(r) + [c]
  {
    if r.open != "" && c == r.open[0] {
      t := ReadClosed(r, c);
    } else if r.open != "" {
      t := r.(open := r.open + [c]);
      assert t.open[1..] == r.open[1..] + [c];
    } else if c == '"' || c == '\'' {
      t := r.(open := [c]);
    } else if c == ' ' || c == '\t' {
      if r.last.pieces == [] {
        t := ReadGap(r, c);
      } else {
        t := ReadNext(r, c);
      }
    } else {
      t := ReadBare(r, c);
    }
  }

  /** Every string is such a line, so nothing the splitter is given is left open. */
  lemma {:induction false} EveryLine(s: string) returns (r: Reading)
    ensures ReadingOk(r) && Whole(r) == s
    decreases |s|
  {
    if s == "" {
      r := NothingRead();
    } else {
      var n := |s| - 1;
      var before := EveryLine(s[..n]);
      assert s[..n] + [s[n]] == s;
      r := ReadMore(before, s[n]);
    }
  }

  lemma NothingRead() returns (r: Reading)
    ensures ReadingOk(r) && Whole(r) == ""
  {
    r := Reading([], Word("", []), "");
  }
}
