/** From a source file to the text that is digested: console.c and larva_init, without the files that a program
    includes and the libraries it uses. */
module Files {
  import opened Bytes
  import opened Syntax
  import opened Rendering
  import opened Digest
  import opened Chew
  import opened Pieces
  import opened Program
  import opened Layout

  /** What console.c hands over: the file and a zero byte, or nothing at all for an empty file. */
  function Opened(file: seq<Byte>): (t: seq<Byte>) {
    if file == [] then [] else file + [NUL]
  }

  /** The file without its comments and escapes. */
  function Cleaned(file: seq<Byte>): (t: seq<Byte>) {
    Chewed(Opened(file), 0, false)
  }

  predicate Terminated(t: seq<Byte>) {
    t != [] && t[|t| - 1] == NUL
  }

  /** The text to be digested. Reading on behind a text that has lost its terminating zero is undefined. */
  function Prepared(file: seq<Byte>): (r: Result<seq<Byte>>) {
    var c := Cleaned(file);
    if !Terminated(c) then Err(Undefined)
    else if Searched(c, 0).Some? then Err(Searched(c, 0).value)
    else Ok(c[..|c| - 1])
  }

  /** The terminating zero of a file is lost exactly if the file is empty or ends inside a comment or behind an
      escaping backslash. */
  lemma FileTerminated(file: seq<Byte>)
    requires NUL !in file
    ensures Terminated(Cleaned(file)) <==> file != [] && !Unfinished(file, 0, false)
  {
    hide Chewed, Unfinished;
    if file == [] {
      PastEnd([], 0, false);
    } else {
      TerminatorSurvives(file);
    }
  }

  // ----- which programs a file can hold -----

  /** A program's text, taken as a file, is clean as it stands exactly if no quoted text has a backslash. */
  lemma TextIsClean(y: Style, src: Source)
    requires WfStyle(y) && WritableSource(y, src) && SourceText(y, src) != []
    ensures Cleaned(SourceText(y, src)) == SourceText(y, src) + [NUL] <==> !SlashedSource(src)
  {
    hide SourceText, WritableSource, Chewed;
    SourcePiece(y, src);
    PieceFixed(SourceText(y, src), SlashedSource(src));
  }

  /** Some file makes a program's text exactly if no quoted text of the program has a backslash. */
  lemma Expressible(y: Style, src: Source)
    requires WfStyle(y) && WritableSource(y, src)
    ensures (exists file :: Cleaned(file) == SourceText(y, src) + [NUL]) <==> !SlashedSource(src)
  {
    hide SourceText, WritableSource, Chewed, Clean;
    var t := SourceText(y, src);
    SourcePiece(y, src);
    PieceFixed(t, SlashedSource(src));
    if file :| Cleaned(file) == t + [NUL] {
      ChewedIsClean(Opened(file), 0, false);
      CleanIffFixed(t + [NUL]);
    }
    if t == [] {
      CommentOnly();
    } else if !SlashedSource(src) {
      assert Cleaned(t) == t + [NUL];
    }
  }

  /** A file of nothing but an empty comment. */
  lemma CommentOnly()
    ensures Cleaned([HASH, NEWLINE]) == [] + [NUL]
  {
    var c := [HASH, NEWLINE, NUL];
    assert Opened([HASH, NEWLINE]) == c;
    ChewedUnfold(c, 0, false);
    assert LineEnd(c, 1) == 1;
    ChewedUnfold(c, 2, false);
    PastEnd(c, 3, false);
  }

  // ----- the search gets through -----

  lemma {:induction false} TextsEnd(y: Style, ss: seq<Stmt>)
    requires y.sep == NEWLINE
    ensures Texts(y, ss) == [] || Texts(y, ss)[|Texts(y, ss)| - 1] == NEWLINE
    decreases |ss|
  {
    hide Render, Lead, Items, Text;
    if ss != [] {
      var k := Listed(ss, y.lists);
      if k >= 2 { TextsEnd(y, ss[k..]); } else { TextsEnd(y, ss[1..]); }
      TextEnds(y, ss[0]);
    }
  }

  lemma TextEnds(y: Style, s: Stmt)
    requires y.sep == NEWLINE
    ensures Text(y, s) != [] && Text(y, s)[|Text(y, s)| - 1] == NEWLINE
  {
    hide Render, Lead, Texts, Enclosed;
  }

  lemma {:induction false} DefsEnd(y: Style, ds: seq<Def>)
    requires y.sep == NEWLINE
    ensures DefTexts(y, ds) == [] || DefTexts(y, ds)[|DefTexts(y, ds)| - 1] == NEWLINE
    decreases |ds|
  {
    hide Lead, Texts, ParamText, ReturnText;
    if ds != [] {
      DefsEnd(y, ds[1..]);
    }
  }

  /** The search stops at no quiet program text with its braces on lines of their own. */
  lemma QuietSource(y: Style, src: Source)
    requires y.sep == NEWLINE && Quiet(SourceText(y, src) + [NUL])
    ensures Searched(SourceText(y, src) + [NUL], 0) == None
  {
    hide Quiet, Searched, Texts, DefTexts;
    var t := SourceText(y, src);
    TextsEnd(y, src.main);
    DefsEnd(y, src.defs);
    QuietPasses(t + [NUL], 0);
  }
}
