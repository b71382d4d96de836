/** Command lines as a user may write them, and the proof that the tokeniser gets out of them
    what was put in.  The characters stand here as they stand on the line. */
module Printing {
  import opened Wrappers
  import opened Tokenizer

  // ---------- What is printed ----------

  /** A part of a word: bare, or in one of the three kinds of quotes. */
  datatype Piece =
    | Bare(text: seq<char>)
    | Single(text: seq<char>)
    | Double(text: seq<char>)
    | Back(text: seq<char>)

  /** A redirection, or a word glued from pieces. */
  datatype Item = Redirection(append: bool) | Glued(pieces: seq<Piece>)

  /** An item and the blanks before it. */
  datatype Spaced = Spaced(gap: seq<char>, item: Item)

  /** How a line ends: after some blanks with nothing, with a comment, or in the middle of
      a word, in quotes that are not closed. */
  datatype Ending =
    | Blank(gap: seq<char>)
    | Hash(gap: seq<char>, comment: seq<char>)
    | Open(gap: seq<char>, pieces: seq<Piece>, quote: char, text: seq<char>)

  function PrintPiece(p: Piece): seq<char> {
    match p
    case Bare(t) => t
    case Single(t) => ['\''] + t + ['\'']
    case Double(t) => ['"'] + t + ['"']
    case Back(t) => ['`'] + t + ['`']
  }

  function PrintPieces(ps: seq<Piece>): seq<char> {
    if ps == [] then [] else PrintPiece(ps[0]) + PrintPieces(ps[1..])
  }

  function PrintItem(i: Item): seq<char> {
    match i
    case Redirection(append) => if append then ['>', '>'] else ['>']
    case Glued(ps) => PrintPieces(ps)
  }

  function PrintEnding(e: Ending): seq<char> {
    match e
    case Blank(gap) => gap
    case Hash(gap, comment) => gap + ['#'] + comment
    case Open(gap, ps, quote, text) => gap + PrintPieces(ps) + [quote] + text
  }

  function Print(items: seq<Spaced>, e: Ending): seq<char> {
    if items == [] then PrintEnding(e)
    else items[0].gap + PrintItem(items[0].item) + Print(items[1..], e)
  }

  // ---------- What may be printed ----------

  predicate Blanks(gap: seq<char>) {
    forall k :: 0 <= k < |gap| ==> gap[k] == ' ' || gap[k] == '\t' || gap[k] == '\n'
  }

  predicate AllBare(t: seq<char>) {
    forall k :: 0 <= k < |t| ==>
      t[k] != ' ' && t[k] != '\t' && t[k] != '\n' && t[k] != '\'' && t[k] != '"' && t[k] != '`'
  }

  predicate GoodPiece(p: Piece) {
    match p
    case Bare(t) => t != [] && AllBare(t)
    case Single(t) => '\'' !in t
    case Double(t) => '"' !in t
    case Back(t) => '`' !in t
  }

  /** A word does not begin as a redirection or a comment. */
  predicate GoodPieces(ps: seq<Piece>) {
    && (forall k :: 0 <= k < |ps| ==> GoodPiece(ps[k]))
    && (ps != [] && ps[0].Bare? ==> ps[0].text[0] != '>' && ps[0].text[0] != '#')
  }

  predicate GoodItem(i: Item) {
    i.Glued? ==> i.pieces != [] && GoodPieces(i.pieces)
  }

  predicate GoodEnding(e: Ending) {
    && Blanks(e.gap)
    && (e.Open? ==> GoodPieces(e.pieces) && e.quote in {'\'', '"', '`'} && e.quote !in e.text)
  }

  /** Between `before` and what follows, blanks are needed unless a redirection sets them
      apart. */
  predicate Apart(before: Option<Item>, gap: seq<char>, next: Option<Item>) {
    || gap != []
    || before.None?
    || (before.value.Redirection? && (before.value.append || next.None? || next.value.Glued?))
  }

  predicate GoodLine(before: Option<Item>, items: seq<Spaced>, e: Ending)
    decreases |items|
  {
    if items == [] then GoodEnding(e) && (e.Blank? || Apart(before, e.gap, None))
    else
      && Blanks(items[0].gap) && GoodItem(items[0].item) && Apart(before, items[0].gap, Some(items[0].item))
      && GoodLine(Some(items[0].item), items[1..], e)
  }

  // ---------- What is read ----------

  /** Single and double quotes go, back-quotes stay. */
  function Kept(ps: seq<Piece>): seq<char> {
    if ps == [] then []
    else (if ps[0].Back? then ['`'] + ps[0].text + ['`'] else ps[0].text) + Kept(ps[1..])
  }

  predicate HasSingle(ps: seq<Piece>) {
    exists k :: 0 <= k < |ps| && ps[k].Single?
  }

  function Expected(items: seq<Spaced>): seq<Token> {
    seq(|items|, i requires 0 <= i < |items| =>
      match items[i].item
      case Redirection(append) => Redirect(append)
      case Glued(ps) => Word(Kept(ps), HasSingle(ps)))
  }

  // ---------- Words ----------

  lemma {:induction false} ScanBare(t: seq<char>, rest: seq<char>)
    requires AllBare(t)
    ensures ScanWord(t + rest) == Before(t, false, ScanWord(rest))
  {
    hide ScanWord;
    if t == [] {
      assert t + rest == rest;
      BeforeNone(ScanWord(rest));
    } else {
      assert (t + rest)[1..] == t[1..] + rest;
      ScanPlain(t + rest);
      ScanBare(t[1..], rest);
      BeforeBefore([t[0]], false, t[1..], false, ScanWord(rest));
      assert [t[0]] + t[1..] == t;
    }
  }

  lemma BeforeNone(s: Scan)
    ensures Before([], false, s) == s
  {
    if s.Scan? {
      assert [] + s.text == s.text;
    }
  }

  /** What a piece adds to the word it stands in. */
  lemma ScanPiece(p: Piece, rest: seq<char>)
    requires GoodPiece(p)
    ensures ScanWord(PrintPiece(p) + rest) ==
      Before(if p.Back? then ['`'] + p.text + ['`'] else p.text, p.Single?, ScanWord(rest))
  {
    hide ScanWord, Before;
    if p.Bare? {
      ScanBare(p.text, rest);
    } else {
      var s := PrintPiece(p) + rest;
      var n := |p.text|;
      assert s[1..n + 1] == p.text && s[n + 2..] == rest && s[..n + 2] == PrintPiece(p);
      ScanQuoted(s, n);
    }
  }

  /** A word of pieces, and what follows its delimiter. */
  lemma {:induction false} ScanPieces(ps: seq<Piece>, rest: seq<char>)
    requires forall k :: 0 <= k < |ps| ==> GoodPiece(ps[k])
    ensures ScanWord(PrintPieces(ps) + rest) == Before(Kept(ps), HasSingle(ps), ScanWord(rest))
  {
    hide ScanWord, GoodPiece, Before, PrintPiece;
    if ps == [] {
      assert PrintPieces(ps) + rest == rest;
      BeforeNone(ScanWord(rest));
    } else {
      var (p, more) := (ps[0], ps[1..]);
      assert PrintPieces(ps) + rest == PrintPiece(p) + (PrintPieces(more) + rest);
      ScanPiece(p, PrintPieces(more) + rest);
      ScanPieces(more, rest);
      BeforeBefore(if p.Back? then ['`'] + p.text + ['`'] else p.text, p.Single?, Kept(more), HasSingle(more),
                   ScanWord(rest));
      assert HasSingle(ps) == (p.Single? || HasSingle(more)) by {
        assert forall k :: 0 <= k < |more| ==> more[k] == ps[k + 1];
        if HasSingle(ps) && !p.Single? {
          var k :| 0 <= k < |ps| && ps[k].Single?;
          assert more[k - 1].Single?;
        }
      }
    }
  }

  // ---------- Tokens ----------

  lemma {:induction false} SkipBlanks(gap: seq<char>, s: seq<char>)
    requires Blanks(gap) && (s == [] || (s[0] != ' ' && s[0] != '\t' && s[0] != '\n'))
    ensures SkipSeparators(gap + s) == s
  {
    if gap == [] {
      assert gap + s == s;
    } else {
      assert (gap + s)[1..] == gap[1..] + s;
      SkipBlanks(gap[1..], s);
    }
  }

  /** How a printed word begins. */
  lemma FirstOfWord(ps: seq<Piece>)
    requires ps != [] && GoodPieces(ps)
    ensures var s := PrintPieces(ps);
      s != [] && s[0] != ' ' && s[0] != '\t' && s[0] != '\n' && s[0] != '>' && s[0] != '#'
  {
    assert PrintPieces(ps) == PrintPiece(ps[0]) + PrintPieces(ps[1..]);
    assert GoodPiece(ps[0]);
  }

  predicate Parted(s: seq<char>) {
    s == [] || s[0] == ' ' || s[0] == '\t' || s[0] == '\n'
  }

  lemma NextWord(gap: seq<char>, ps: seq<Piece>, rest: seq<char>)
    requires Blanks(gap) && ps != [] && GoodPieces(ps) && Parted(rest)
    ensures Next(gap + PrintPieces(ps) + rest) == (Word(Kept(ps), HasSingle(ps)), if rest == [] then [] else rest[1..])
  {
    hide ScanWord, PrintPieces, SkipSeparators, Kept, HasSingle;
    var t := PrintPieces(ps) + rest;
    FirstOfWord(ps);
    assert gap + PrintPieces(ps) + rest == gap + t;
    SkipBlanks(gap, t);
    ScanPieces(ps, rest);
    ScanSeparator(rest);
    assert Kept(ps) + [] == Kept(ps);
  }

  lemma NextRedirection(gap: seq<char>, append: bool, rest: seq<char>)
    requires Blanks(gap) && (!append && rest != [] ==> rest[0] != '>')
    ensures Next(gap + PrintItem(Redirection(append)) + rest) == (Redirect(append), rest)
  {
    hide ScanWord, SkipSeparators;
    var t := PrintItem(Redirection(append)) + rest;
    assert gap + PrintItem(Redirection(append)) + rest == gap + t;
    SkipBlanks(gap, t);
  }

  lemma {:induction false} ScanOpen(ps: seq<Piece>, quote: char, text: seq<char>)
    requires GoodPieces(ps) && quote in {'\'', '"', '`'} && quote !in text
    ensures ScanWord(PrintPieces(ps) + ([quote] + text)) == Unmatched
  {
    hide ScanWord, PrintPieces;
    ScanPieces(ps, [quote] + text);
    assert ([quote] + text)[1..] == text;
    ScanUnmatched([quote] + text);
  }

  /** No token follows a printed ending; a quote that is not closed is told from an end.  A
      comment is left standing with its `#`, and otherwise nothing is taken off the line. */
  lemma NextEnding(e: Ending)
    requires GoodEnding(e)
    ensures Next(PrintEnding(e)) ==
      match e
      case Blank(_) => (End, PrintEnding(e))
      case Hash(_, comment) => (Comment, ['#'] + comment)
      case Open(_, _, _, _) => (Bad, PrintEnding(e))
  {
    hide ScanWord, SkipSeparators, PrintPieces;
    match e
    case Blank(gap) =>
      assert gap + [] == gap;
      SkipBlanks(gap, []);
    case Hash(gap, comment) =>
      assert gap + ['#'] + comment == gap + (['#'] + comment);
      SkipBlanks(gap, ['#'] + comment);
    case Open(gap, ps, quote, text) =>
      var t := PrintPieces(ps) + ([quote] + text);
      assert PrintEnding(e) == gap + t;
      if ps != [] {
        FirstOfWord(ps);
      } else {
        assert t == [quote] + text by { assert PrintPieces([]) == [] by { PrintNoPieces(); } }
      }
      SkipBlanks(gap, t);
      ScanOpen(ps, quote, text);
  }

  lemma PrintNoPieces()
    ensures PrintPieces([]) == []
  {
  }

  lemma WordsStep(s: seq<char>)
    ensures Next(s).0.Word? || Next(s).0.Redirect? ==> Words(s) == [Next(s).0] + Words(Next(s).1)
    ensures !Next(s).0.Word? && !Next(s).0.Redirect? ==> Words(s) == []
  {
  }

  /** A blank before the next token is no matter. */
  lemma WordsAfterBlank(s: seq<char>)
    requires s != [] && Parted(s)
    ensures Words(s[1..]) == Words(s)
  {
    hide ScanWord;
    assert SkipSeparators(s) == SkipSeparators(s[1..]);
    hide SkipSeparators;
    WordsStep(s);
    WordsStep(s[1..]);
  }

  /** After a word the line goes on with a blank, if it goes on. */
  lemma AfterWord(ps: seq<Piece>, items: seq<Spaced>, e: Ending)
    requires GoodLine(Some(Glued(ps)), items, e)
    ensures Parted(Print(items, e))
  {
    hide PrintPieces;
  }

  /** What follows `>` is not read with it. */
  lemma AfterRedirection(items: seq<Spaced>, e: Ending)
    requires GoodLine(Some(Redirection(false)), items, e)
    ensures Print(items, e) == [] || Print(items, e)[0] != '>'
  {
    hide PrintPieces;
    if items != [] && items[0].gap == [] {
      FirstOfWord(items[0].item.pieces);
      assert Print(items, e)[0] == PrintItem(items[0].item)[0];
    } else if items == [] && e.Open? && e.gap == [] {
      if e.pieces == [] {
        PrintNoPieces();
      } else {
        FirstOfWord(e.pieces);
      }
      assert PrintEnding(e) == PrintPieces(e.pieces) + ([e.quote] + e.text);
    }
  }

  /** Tokeniser round trip: whatever bare, quoted and glued words and redirections are
      printed, with whatever blanks between them and whatever comment or open quote behind
      them, come back in order, each with its text and the flag that forbids expanding it. */
  lemma {:induction false} WordsOfPrinted(before: Option<Item>, items: seq<Spaced>, e: Ending)
    requires GoodLine(before, items, e)
    ensures Words(Print(items, e)) == Expected(items)
    decreases |items|
  {
    hide Next, Words, PrintItem, PrintEnding, Blanks, GoodItem, GoodEnding, HasSingle, Kept;
    WordsStep(Print(items, e));
    if items == [] {
      NextEnding(e);
    } else {
      var (first, rest) := (items[0], Print(items[1..], e));
      WordsOfPrinted(Some(first.item), items[1..], e);
      ItemStep(first, items[1..], e);
      assert Expected(items) == [Expected(items)[0]] + Expected(items[1..]);
    }
  }

  lemma ItemStep(first: Spaced, more: seq<Spaced>, e: Ending)
    requires Blanks(first.gap) && GoodItem(first.item) && GoodLine(Some(first.item), more, e)
    ensures Words(first.gap + PrintItem(first.item) + Print(more, e)) ==
      [match first.item
       case Redirection(append) => Redirect(append)
       case Glued(ps) => Word(Kept(ps), HasSingle(ps))] + Words(Print(more, e))
  {
    hide Next, Words, Print, GoodLine, PrintPieces, Blanks, HasSingle, Kept;
    var rest := Print(more, e);
    WordsStep(first.gap + PrintItem(first.item) + rest);
    match first.item
    case Redirection(append) =>
      if !append {
        AfterRedirection(more, e);
      }
      NextRedirection(first.gap, append, rest);
    case Glued(ps) =>
      AfterWord(ps, more, e);
      NextWord(first.gap, ps, rest);
      if rest != [] {
        WordsAfterBlank(rest);
      }
  }
}
