/**
  `split_text`: cutting a document into overlapping chunks before embedding.
  A string is its sequence of Unicode characters, which is what the source counts.
 */
module Chunker {
  import opened Prelude
  import opened Strings

  datatype Splitter = Sentence | Paragraph | Token
  datatype ChunkConfig = ChunkConfig(size: nat, overlap: nat, splitter: Splitter)

  // ----- characters and pieces -----

  predicate EndsSentence(c: char) { c == '.' || c == '!' || c == '?' || c == '\n' }

  /** The pieces of `s` between blank lines, a blank line being two line feeds, leftmost first. */
  function SplitBlankLines(s: string): (pieces: seq<string>)
    ensures pieces != []
  {
    if s == "" then [""]
    else if |s| >= 2 && s[0] == '\n' && s[1] == '\n' then [""] + SplitBlankLines(s[2..])
    else
      var rest := SplitBlankLines(s[1..]);
      [[s[0]] + rest[0]] + rest[1..]
  }

  /** The pieces trimmed, without the empty ones. */
  function Tidy(pieces: seq<string>): seq<string> {
    if pieces == [] then [] else
    var unit := Trim(pieces[0]);
    (if unit == "" then [] else [unit]) + Tidy(pieces[1..])
  }

  function Units(text: string, splitter: Splitter): seq<string> {
    match splitter
    case Sentence => Tidy(SplitWhere(text, EndsSentence))
    case Paragraph => Tidy(SplitBlankLines(text))
    case Token => Tidy(SplitWhere(text, IsSpace))
  }

  /** A unit is not empty and neither starts nor ends with white space. */
  predicate IsUnit(u: string) {
    u != "" && !IsSpace(u[0]) && !IsSpace(u[|u| - 1])
  }

  predicate AllUnits(us: seq<string>) { forall u :: u in us ==> IsUnit(u) }

  lemma {:induction false} TidyUnits(pieces: seq<string>)
    ensures AllUnits(Tidy(pieces))
  {
    if pieces == [] {
    } else {
      TidyUnits(pieces[1..]);
      TrimStartShape(pieces[0]);
      TrimEndShape(TrimStart(pieces[0]));
    }
  }

  lemma UnitsAreUnits(text: string, splitter: Splitter)
    ensures AllUnits(Units(text, splitter))
  {
    TidyUnits(SplitWhere(text, EndsSentence));
    TidyUnits(SplitBlankLines(text));
    TidyUnits(SplitWhere(text, IsSpace));
  }

  // ----- where a splitter cuts -----

  /** A character at which the splitter cuts. */
  predicate IsMark(splitter: Splitter, c: char) {
    match splitter
    case Sentence => c in ['.', '!', '?', '\n']
    case Paragraph => false
    case Token => IsSpace(c)
  }

  predicate HasBlankLine(s: string) {
    exists i :: 0 <= i < |s| - 1 && s[i] == '\n' && s[i + 1] == '\n'
  }

  /** It cuts at all of its marks: no unit holds one, and no paragraph holds a blank line. */
  lemma UnitsHoldNoMark(text: string, splitter: Splitter, u: string)
    requires u in Units(text, splitter)
    ensures forall c :: c in u ==> !IsMark(splitter, c)
    ensures splitter.Paragraph? ==> !HasBlankLine(u)
  {
    hide SplitWhere, SplitBlankLines, Tidy, Trim;
    match splitter
    case Sentence =>
      PiecesUncut(text, EndsSentence);
      var p := TidyFrom(SplitWhere(text, EndsSentence), u);
      forall c | c in u ensures !IsMark(splitter, c) { TrimWithin(p, c); }
    case Paragraph =>
      var p := TidyFrom(SplitBlankLines(text), u);
      ParagraphsUncut(text, p);
      TrimKeepsParagraph(p);
    case Token =>
      PiecesUncut(text, IsSpace);
      var p := TidyFrom(SplitWhere(text, IsSpace), u);
      forall c | c in u ensures !IsMark(splitter, c) { TrimWithin(p, c); }
  }

  lemma {:induction false} TidyFrom(pieces: seq<string>, u: string) returns (p: string)
    requires u in Tidy(pieces)
    ensures p in pieces && u == Trim(p)
  {
    if Trim(pieces[0]) == u {
      p := pieces[0];
    } else {
      p := TidyFrom(pieces[1..], u);
    }
  }

  lemma TrimKeepsParagraph(p: string)
    requires !HasBlankLine(p)
    ensures !HasBlankLine(Trim(p))
  {
    var before, after := TrimTakesSpaces(p);
    hide Trim;
    forall i | 0 <= i < |Trim(p)| - 1 ensures !(Trim(p)[i] == '\n' && Trim(p)[i + 1] == '\n') {
      var k := |before| + i;
      assert p[k] == Trim(p)[i] && p[k + 1] == Trim(p)[i + 1];
    }
  }

  lemma {:induction false} ParagraphsUncut(s: string, p: string)
    requires p in SplitBlankLines(s)
    ensures !HasBlankLine(p)
    decreases |s|
  {
    if s == "" {
    } else if |s| >= 2 && s[0] == '\n' && s[1] == '\n' {
      if p != "" { ParagraphsUncut(s[2..], p); }
    } else {
      var rest := SplitBlankLines(s[1..]);
      if p in rest {
        ParagraphsUncut(s[1..], p);
      } else {
        assert p == [s[0]] + rest[0];
        ParagraphsUncut(s[1..], rest[0]);
        FirstParagraph(s[1..]);
        if i :| 0 <= i < |p| - 1 && p[i] == '\n' && p[i + 1] == '\n' {
          assert i > 0 ==> rest[0][i - 1] == '\n' && rest[0][i] == '\n';
        }
      }
    }
  }

  lemma FirstParagraph(s: string)
    ensures SplitBlankLines(s)[0] == "" || (s != "" && SplitBlankLines(s)[0][0] == s[0])
  {
  }

  /** It cuts at nothing else: a text without a mark is one unit, trimmed, or none. */
  lemma UncutText(text: string, splitter: Splitter)
    requires forall c :: c in text ==> !IsMark(splitter, c)
    requires splitter.Paragraph? ==> !HasBlankLine(text)
    ensures Units(text, splitter) == if Trim(text) == "" then [] else [Trim(text)]
  {
    hide SplitWhere, SplitBlankLines, Trim, Tidy;
    TidyOne(text);
    match splitter
    case Sentence => SplitNowhere(text, EndsSentence);
    case Paragraph => OneParagraph(text);
    case Token => SplitNowhere(text, IsSpace);
  }

  lemma TidyOne(piece: string)
    ensures Tidy([piece]) == if Trim(piece) == "" then [] else [Trim(piece)]
  {
    assert [piece][1..] == [];
  }

  lemma {:induction false} OneParagraph(s: string)
    requires !HasBlankLine(s)
    ensures SplitBlankLines(s) == [s]
  {
    if s == "" {
    } else {
      forall i | 0 <= i < |s| - 2 ensures !(s[1..][i] == '\n' && s[1..][i + 1] == '\n') {
        assert s[1..][i] == s[i + 1] && s[1..][i + 1] == s[i + 2];
      }
      OneParagraph(s[1..]);
      assert [s[0]] + s[1..] == s;
    }
  }

  /** At a mark the units are those before it and those after it. */
  lemma UnitsCutAtMark(a: string, c: char, b: string, splitter: Splitter)
    requires IsMark(splitter, c)
    ensures Units(a + [c] + b, splitter) == Units(a, splitter) + Units(b, splitter)
  {
    hide SplitWhere, Tidy;
    match splitter
    case Sentence =>
      SplitAt(a, c, b, EndsSentence);
      TidyConcat(SplitWhere(a, EndsSentence), SplitWhere(b, EndsSentence));
    case Token =>
      SplitAt(a, c, b, IsSpace);
      TidyConcat(SplitWhere(a, IsSpace), SplitWhere(b, IsSpace));
  }

  /** At the first blank line the paragraphs are the one before it, if not blank, and those after it. */
  lemma UnitsCutAtBlankLine(a: string, b: string)
    requires !HasBlankLine(a + "\n")
    ensures Units(a + "\n\n" + b, Paragraph) == Units(a, Paragraph) + Units(b, Paragraph)
  {
    hide SplitBlankLines, Tidy;
    BlankLineCuts(a, b);
    assert !HasBlankLine(a) by {
      if i :| 0 <= i < |a| - 1 && a[i] == '\n' && a[i + 1] == '\n' {
        assert (a + "\n")[i] == '\n' && (a + "\n")[i + 1] == '\n';
      }
    }
    OneParagraph(a);
    TidyConcat([a], SplitBlankLines(b));
  }

  lemma {:induction false} BlankLineCuts(a: string, b: string)
    requires !HasBlankLine(a + "\n")
    ensures SplitBlankLines(a + "\n\n" + b) == [a] + SplitBlankLines(b)
  {
    var s := a + "\n\n" + b;
    if a == "" {
      assert s[2..] == b;
    } else {
      assert s[1..] == a[1..] + "\n\n" + b;
      assert (a + "\n")[0] == a[0] && (a + "\n")[1] == s[1];
      forall i | 0 <= i < |a| - 1 ensures !((a[1..] + "\n")[i] == '\n' && (a[1..] + "\n")[i + 1] == '\n') {
        assert (a[1..] + "\n")[i] == (a + "\n")[i + 1] && (a[1..] + "\n")[i + 1] == (a + "\n")[i + 2];
      }
      BlankLineCuts(a[1..], b);
      assert ([a[1..]] + SplitBlankLines(b))[1..] == SplitBlankLines(b);
      assert [a[0]] + a[1..] == a;
    }
  }

  lemma {:induction false} TidyConcat(xs: seq<string>, ys: seq<string>)
    ensures Tidy(xs + ys) == Tidy(xs) + Tidy(ys)
  {
    if xs == [] {
      assert xs + ys == ys;
    } else {
      TidyConcat(xs[1..], ys);
      assert (xs + ys)[1..] == xs[1..] + ys;
      Regroup(if Trim(xs[0]) == "" then [] else [Trim(xs[0])], Tidy(xs[1..]), Tidy(ys));
    }
  }

  /** Text that ends in a unit is not blank. */
  lemma NotBlank(s: string)
    requires s != "" && !IsSpace(s[|s| - 1])
    ensures !Blank(s)
  {
    KeepsEnd(s);
    TrimEndShape(TrimStart(s));
  }

  lemma {:induction false} KeepsEnd(s: string)
    requires s != "" && !IsSpace(s[|s| - 1])
    ensures TrimStart(s) != "" && TrimStart(s)[|TrimStart(s)| - 1] == s[|s| - 1]
  {
    if IsSpace(s[0]) { KeepsEnd(s[1..]); }
  }

  // ----- building one chunk -----

  /** `current` after one more unit: a space in between, unless there is nothing yet. */
  function Push(current: string, unit: string): string {
    (if current == "" then "" else current + " ") + unit
  }

  /** A chunk that starts from `carry` and takes the units `us`. */
  function Body(carry: string, us: seq<string>): string {
    if us == [] then carry else Push(Body(carry, us[..|us| - 1]), us[|us| - 1])
  }

  /** The last `n` characters of `s`, or all of them. */
  function LastChars(s: string, n: nat): string { if |s| <= n then s else s[|s| - n..] }

  /** How many units a chunk takes before it reaches `size`; zero when they do not suffice. */
  function FlushCount(carry: string, us: seq<string>, size: nat, from: nat): (n: nat)
    requires 1 <= from
    ensures n == 0 || from <= n <= |us|
    decreases |us| - from
  {
    if from > |us| then 0
    else if |Body(carry, us[..from])| >= size then from
    else FlushCount(carry, us, size, from + 1)
  }

  /** The chunks of `us`, one chunk at a time: each is filled until it reaches `size`. */
  function Chunks(carry: string, us: seq<string>, size: nat, overlap: nat): seq<string>
    decreases |us|
  {
    var n := FlushCount(carry, us, size, 1);
    if n == 0 then
      if Blank(Body(carry, us)) then [] else [Body(carry, us)]
    else
      var chunk := Body(carry, us[..n]);
      [chunk] + Chunks(LastChars(chunk, overlap), us[n..], size, overlap)
  }

  /** The chunks of a document. */
  function Split(text: string, cfg: ChunkConfig): seq<string> {
    var chunks := Chunks("", Units(text, cfg.splitter), cfg.size, cfg.overlap);
    if cfg.size == 0 || chunks == [] then [text] else chunks
  }

  predicate Below(carry: string, us: seq<string>, size: nat, n: nat)
    requires n <= |us|
  {
    forall m :: 1 <= m <= n ==> |Body(carry, us[..m])| < size
  }

  lemma {:induction false} FlushCountSkips(carry: string, us: seq<string>, size: nat, from: nat, n: nat)
    requires 1 <= from <= n + 1 && n <= |us| && Below(carry, us, size, n)
    ensures FlushCount(carry, us, size, from) == FlushCount(carry, us, size, n + 1)
    decreases n - from
  {
    if from <= n { FlushCountSkips(carry, us, size, from + 1, n); }
  }

  lemma {:induction false} FlushCountLeast(carry: string, us: seq<string>, size: nat, from: nat)
    requires 1 <= from <= |us| + 1 && Below(carry, us, size, from - 1)
    ensures var n := FlushCount(carry, us, size, from);
            if n == 0 then Below(carry, us, size, |us|)
            else |Body(carry, us[..n])| >= size && Below(carry, us, size, n - 1)
    decreases |us| - from
  {
    if from <= |us| && |Body(carry, us[..from])| < size {
      FlushCountLeast(carry, us, size, from + 1);
    }
  }

  /** A chunk that reaches `size` with the last of the units `taken` is complete. */
  lemma ChunksFlush(done: seq<string>, carry: string, taken: seq<string>, rest: seq<string>, size: nat, overlap: nat)
    requires taken != [] && Below(carry, taken, size, |taken| - 1) && |Body(carry, taken)| >= size
    ensures done + Chunks(carry, taken + rest, size, overlap)
         == (done + [Body(carry, taken)]) + Chunks(LastChars(Body(carry, taken), overlap), rest, size, overlap)
  {
    var us, n := taken + rest, |taken|;
    forall m | 1 <= m <= n - 1 ensures |Body(carry, us[..m])| < size {
      assert us[..m] == taken[..m];
    }
    assert us[..n] == taken && us[n..] == rest;
    FlushCountSkips(carry, us, size, 1, n - 1);
  }

  /** A chunk that no unit completes is the last one. */
  lemma ChunksEnd(carry: string, us: seq<string>, size: nat, overlap: nat)
    requires Below(carry, us, size, |us|)
    ensures Chunks(carry, us, size, overlap) == if Blank(Body(carry, us)) then [] else [Body(carry, us)]
  {
    FlushCountSkips(carry, us, size, 1, |us|);
  }

  lemma BodyPush(carry: string, taken: seq<string>, unit: string, size: nat)
    ensures Body(carry, taken + [unit]) == Push(Body(carry, taken), unit)
    ensures Below(carry, taken, size, |taken|) ==> Below(carry, taken + [unit], size, |taken|)
    ensures Below(carry, taken, size, |taken|) && |Body(carry, taken + [unit])| < size ==>
              Below(carry, taken + [unit], size, |taken| + 1)
  {
    assert (taken + [unit])[..|taken|] == taken;
    assert (taken + [unit])[..|taken| + 1] == taken + [unit];
    forall m | 1 <= m <= |taken| ensures (taken + [unit])[..m] == taken[..m] {
    }
  }

  /** The source's loop, unit by unit, computes the chunk-by-chunk definition. */
  method SplitText(text: string, cfg: ChunkConfig) returns (result: seq<string>)
    ensures result == Split(text, cfg)
  {
    hide Chunks, Units, Blank;
    if cfg.size == 0 {
      return [text];
    }
    var units := Units(text, cfg.splitter);
    var chunks: seq<string> := [];
    var current := "";
    ghost var carry: string, taken: seq<string> := "", [];  // the chunk being built: what it repeats, and its units
    var i := 0;
    assert taken + units[i..] == units;
    while i < |units|
      invariant 0 <= i <= |units|
      invariant current == Body(carry, taken) && Below(carry, taken, cfg.size, |taken|)
      invariant Chunks("", units, cfg.size, cfg.overlap)
             == chunks + Chunks(carry, taken + units[i..], cfg.size, cfg.overlap)
    {
      var unit := units[i];
      BodyPush(carry, taken, unit, cfg.size);
      assert taken + units[i..] == (taken + [unit]) + units[i + 1..];
      taken := taken + [unit];
      if current != "" {
        current := current + " ";
      }
      current := current + unit;
      if |current| >= cfg.size {
        ChunksFlush(chunks, carry, taken, units[i + 1..], cfg.size, cfg.overlap);
        ghost var full := current;
        chunks, current := chunks + [current], "";
        if cfg.overlap > 0 {
          current := LastChars(chunks[|chunks| - 1], cfg.overlap);
        }
        assert current == LastChars(full, cfg.overlap);
        carry, taken := current, [];
        assert taken + units[i + 1..] == units[i + 1..];
      }
      i := i + 1;
    }
    assert taken + units[i..] == taken;
    ChunksEnd(carry, taken, cfg.size, cfg.overlap);
    if !Blank(current) {
      chunks := chunks + [current];
    }
    result := if chunks == [] then [text] else chunks;
  }

  // ----- nothing is lost -----

  /** The units separated by single spaces. */
  function Join(us: seq<string>): string { Strings.Join(us, ' ') }

  /** Every unit after a space. */
  function Spaced(us: seq<string>): string {
    if us == [] then "" else Spaced(us[..|us| - 1]) + " " + us[|us| - 1]
  }

  lemma {:induction false} BodyOfCarry(carry: string, us: seq<string>)
    requires carry != ""
    ensures Body(carry, us) == carry + Spaced(us)
  {
    if us == [] {
    } else {
      BodyOfCarry(carry, us[..|us| - 1]);
    }
  }

  lemma {:induction false} BodyIsJoin(us: seq<string>)
    requires AllUnits(us)
    ensures Body("", us) == Join(us)
    ensures us != [] ==> Join(us) != ""
  {
    if us == [] {
    } else {
      var init, last := us[..|us| - 1], us[|us| - 1];
      assert last in us && us == init + [last];
      BodyIsJoin(init);
      if init != [] { JoinAppend(init, [last], ' '); }
    }
  }

  lemma {:induction false} BodyAppend(carry: string, us: seq<string>, vs: seq<string>)
    ensures Body(carry, us + vs) == Body(Body(carry, us), vs)
  {
    if vs == [] {
      assert us + vs == us;
    } else {
      assert (us + vs)[..|us + vs| - 1] == us + vs[..|vs| - 1];
      BodyAppend(carry, us, vs[..|vs| - 1]);
    }
  }

  /** What may stand before a chunk's own units: nothing, or text that ends like a unit. */
  predicate IsCarry(carry: string) { carry == "" || !IsSpace(carry[|carry| - 1]) }

  /** A chunk ends where its last unit, or else its carry, ends. */
  lemma BodyEnd(carry: string, us: seq<string>)
    requires AllUnits(us) && us != []
    ensures Body(carry, us) != "" && IsCarry(Body(carry, us))
  {
    assert us[|us| - 1] in us;
  }

  /** Remove from each later chunk what it repeats of the one before, and concatenate. */
  function Rebuild(chunks: seq<string>, overlap: nat): string
    requires chunks != []
  {
    if |chunks| == 1 then chunks[0] else
    var last := chunks[|chunks| - 1];
    var repeated := |LastChars(chunks[|chunks| - 2], overlap)|;
    Rebuild(chunks[..|chunks| - 1], overlap) + (if repeated <= |last| then last[repeated..] else "")
  }

  lemma {:induction false} RebuildFirst(c: string, rest: seq<string>, overlap: nat)
    requires rest != [] && LastChars(c, overlap) <= rest[0]
    ensures LastChars(c, overlap) <= Rebuild(rest, overlap)
    ensures Rebuild([c] + rest, overlap) == c + Rebuild(rest, overlap)[|LastChars(c, overlap)|..]
  {
    hide LastChars;
    var chunks := [c] + rest;
    if |rest| > 1 {
      var init := rest[..|rest| - 1];
      assert chunks[..|chunks| - 1] == [c] + init;
      RebuildFirst(c, init, overlap);
    } else {
      assert chunks[..1] == [c];
    }
  }

  lemma LastCharsCarry(c: string, overlap: nat)
    requires c != "" && IsCarry(c)
    ensures IsCarry(LastChars(c, overlap))
    ensures LastChars(c, overlap) == "" <==> overlap == 0
  {
  }

  /** With an overlap, the chunks are never empty and begin with the carry. */
  lemma {:induction false} ChunksLossless(carry: string, us: seq<string>, size: nat, overlap: nat)
    requires overlap > 0 && AllUnits(us) && IsCarry(carry) && (us != [] || carry != "")
    ensures var r := Chunks(carry, us, size, overlap);
            r != [] && carry <= r[0] && Rebuild(r, overlap) == Body(carry, us)
    decreases |us|
  {
    var n := FlushCount(carry, us, size, 1);
    if carry == "" {
    } else {
      BodyOfCarry(carry, us);
    }
    if n == 0 {
      if us != [] { BodyEnd(carry, us); }
      NotBlank(Body(carry, us));
    } else {
      var c := Body(carry, us[..n]);
      if carry != "" { BodyOfCarry(carry, us[..n]); }
      BodyEnd(carry, us[..n]);
      LastCharsCarry(c, overlap);
      var rest := Chunks(LastChars(c, overlap), us[n..], size, overlap);
      ChunksLossless(LastChars(c, overlap), us[n..], size, overlap);
      RebuildChunk(carry, us, n, rest, overlap);
      assert Chunks(carry, us, size, overlap) == [c] + rest;
    }
  }

  lemma RebuildChunk(carry: string, us: seq<string>, n: nat, rest: seq<string>, overlap: nat)
    requires n <= |us| && overlap > 0 && Body(carry, us[..n]) != ""
    requires var next := LastChars(Body(carry, us[..n]), overlap);
             rest != [] && next <= rest[0] && Rebuild(rest, overlap) == Body(next, us[n..])
    ensures Rebuild([Body(carry, us[..n])] + rest, overlap) == Body(carry, us)
  {
    hide Body, Rebuild, Spaced;
    var c := Body(carry, us[..n]);
    var next := LastChars(c, overlap);
    calc {
      Rebuild([c] + rest, overlap);
      { RebuildFirst(c, rest, overlap); }
      c + Rebuild(rest, overlap)[|next|..];
      { BodyOfCarry(next, us[n..]); assert (next + Spaced(us[n..]))[|next|..] == Spaced(us[n..]); }
      c + Spaced(us[n..]);
      { BodyOfCarry(c, us[n..]); }
      Body(c, us[n..]);
      { BodyAppend(carry, us[..n], us[n..]); assert us[..n] + us[n..] == us; }
      Body(carry, us);
    }
  }

  lemma {:induction false} ChunksLosslessPlain(us: seq<string>, size: nat)
    requires AllUnits(us)
    ensures Join(Chunks("", us, size, 0)) == Join(us)
    ensures Chunks("", us, size, 0) == [] <==> us == []
    decreases |us|
  {
    var n := FlushCount("", us, size, 1);
    if n == 0 {
      BodyIsJoin(us);
      if us != [] {
        BodyEnd("", us);
        NotBlank(Body("", us));
        assert Chunks("", us, size, 0) == [Join(us)];
      }
    } else {
      BodyIsJoin(us[..n]);
      ChunksLosslessPlain(us[n..], size);
      JoinChunk(us, n, Chunks("", us[n..], size, 0));
      assert LastChars(Body("", us[..n]), 0) == "";
      assert Chunks("", us, size, 0) == [Join(us[..n])] + Chunks("", us[n..], size, 0);
    }
  }

  lemma JoinChunk(us: seq<string>, n: nat, rest: seq<string>)
    requires 1 <= n <= |us| && Join(rest) == Join(us[n..]) && (rest == [] <==> us[n..] == [])
    ensures Join([Join(us[..n])] + rest) == Join(us)
  {
    assert us[..n] + us[n..] == us;
    if rest != [] {
      JoinAppend([Join(us[..n])], rest, ' ');
      JoinAppend(us[..n], us[n..], ' ');
    } else {
      assert us[..n] == us;
    }
  }

  /**
    Losslessness.  With an overlap, dropping from each later chunk what it repeats
    of the one before gives the units joined by single spaces; without one, joining
    the chunks by spaces does.
   */
  lemma SplitIsLossless(text: string, cfg: ChunkConfig)
    requires cfg.size > 0 && Units(text, cfg.splitter) != []
    ensures Split(text, cfg) != []
    ensures cfg.overlap > 0 ==> Rebuild(Split(text, cfg), cfg.overlap) == Strings.Join(Units(text, cfg.splitter), ' ')
    ensures cfg.overlap == 0 ==> Strings.Join(Split(text, cfg), ' ') == Strings.Join(Units(text, cfg.splitter), ' ')
  {
    var units := Units(text, cfg.splitter);
    UnitsAreUnits(text, cfg.splitter);
    if cfg.overlap > 0 {
      ChunksLossless("", units, cfg.size, cfg.overlap);
      BodyIsJoin(units);
    } else {
      ChunksLosslessPlain(units, cfg.size);
    }
  }

  /** A document that is not split: with no size, or with no units, it is its own only chunk. */
  lemma UnsplitText(text: string, cfg: ChunkConfig)
    requires cfg.size == 0 || Units(text, cfg.splitter) == []
    ensures Split(text, cfg) == [text]
  {
  }

  // ----- down to the characters of the document -----

  /** The characters of `s` that are not dropped. */
  function Without(s: string, drop: char -> bool): string {
    if s == "" then "" else (if drop(s[0]) then "" else [s[0]]) + Without(s[1..], drop)
  }

  lemma {:induction false} WithoutAppend(s: string, t: string, drop: char -> bool)
    ensures Without(s + t, drop) == Without(s, drop) + Without(t, drop)
  {
    if s == "" {
      assert s + t == t;
    } else {
      assert (s + t)[1..] == s[1..] + t;
      WithoutAppend(s[1..], t, drop);
    }
  }

  predicate DropsSpaces(drop: char -> bool) { forall c :: IsSpace(c) ==> drop(c) }

  lemma {:induction false} WithoutTrimStart(s: string, drop: char -> bool)
    requires DropsSpaces(drop)
    ensures Without(TrimStart(s), drop) == Without(s, drop)
  {
    if s != "" && IsSpace(s[0]) { WithoutTrimStart(s[1..], drop); }
  }

  lemma {:induction false} WithoutTrimEnd(s: string, drop: char -> bool)
    requires DropsSpaces(drop)
    ensures Without(TrimEnd(s), drop) == Without(s, drop)
  {
    if s != "" && IsSpace(s[|s| - 1]) {
      var init, end := s[..|s| - 1], [s[|s| - 1]];
      WithoutTrimEnd(init, drop);
      WithoutAppend(init, end, drop);
      assert s == init + end && Without(end, drop) == Without(end[1..], drop) == "";
    }
  }

  function Flatten(pieces: seq<string>): string {
    if pieces == [] then "" else pieces[0] + Flatten(pieces[1..])
  }

  lemma {:induction false} WithoutTidy(pieces: seq<string>, drop: char -> bool)
    requires DropsSpaces(drop)
    ensures Without(Flatten(Tidy(pieces)), drop) == Without(Flatten(pieces), drop)
  {
    if pieces == [] {
    } else {
      var p := pieces[0];
      WithoutTidy(pieces[1..], drop);
      WithoutTrimStart(p, drop);
      WithoutTrimEnd(TrimStart(p), drop);
      WithoutAppend(p, Flatten(pieces[1..]), drop);
      WithoutAppend(Trim(p), Flatten(Tidy(pieces[1..])), drop);
      if Trim(p) != "" {
        assert Tidy(pieces) == [Trim(p)] + Tidy(pieces[1..]);
        assert Tidy(pieces)[1..] == Tidy(pieces[1..]);
      } else {
        assert Without(Trim(p), drop) == "";
        assert Tidy(pieces) == Tidy(pieces[1..]);
      }
    }
  }

  lemma {:induction false} WithoutSplitWhere(s: string, cut: char -> bool, drop: char -> bool)
    requires forall c :: cut(c) ==> drop(c)
    ensures Without(Flatten(SplitWhere(s, cut)), drop) == Without(s, drop)
  {
    if s == "" {
    } else {
      WithoutSplitWhere(s[1..], cut, drop);
      ConsPiece(s[0], SplitWhere(s[1..], cut), drop);
    }
  }

  lemma {:induction false} WithoutSplitBlankLines(s: string, drop: char -> bool)
    requires drop('\n')
    ensures Without(Flatten(SplitBlankLines(s)), drop) == Without(s, drop)
  {
    if |s| >= 2 && s[0] == '\n' && s[1] == '\n' {
      WithoutSplitBlankLines(s[2..], drop);
      ConsPiece('\n', SplitBlankLines(s[2..]), drop);
      WithoutAppend(s[..2], s[2..], drop);
      assert s[..2] + s[2..] == s && s[..2] == "\n\n" && s[..2][1..] == "\n";
      assert Without("\n", drop) == "" && Without("\n\n", drop) == "";
    } else if s != "" {
      WithoutSplitBlankLines(s[1..], drop);
      ConsPiece(s[0], SplitBlankLines(s[1..]), drop);
    }
  }

  lemma FlattenCons(piece: string, pieces: seq<string>)
    ensures Flatten([piece] + pieces) == piece + Flatten(pieces)
  {
    assert ([piece] + pieces)[1..] == pieces;
  }

  lemma ConsPiece(c: char, pieces: seq<string>, drop: char -> bool)
    requires pieces != []
    ensures Without(Flatten([""] + pieces), drop) == Without(Flatten(pieces), drop)
    ensures Without(Flatten([[c] + pieces[0]] + pieces[1..]), drop)
         == (if drop(c) then "" else [c]) + Without(Flatten(pieces), drop)
  {
    FlattenCons("", pieces);
    assert "" + Flatten(pieces) == Flatten(pieces);
    calc {
      Flatten([[c] + pieces[0]] + pieces[1..]);
      { FlattenCons([c] + pieces[0], pieces[1..]); }
      ([c] + pieces[0]) + Flatten(pieces[1..]);
      [c] + (pieces[0] + Flatten(pieces[1..]));
      [c] + Flatten(pieces);
    }
    var all := [c] + Flatten(pieces);
    assert all[1..] == Flatten(pieces);
    assert Without(all, drop) == (if drop(all[0]) then "" else [all[0]]) + Without(all[1..], drop);
  }

  lemma {:induction false} WithoutJoin(us: seq<string>, drop: char -> bool)
    requires drop(' ')
    ensures Without(Join(us), drop) == Without(Flatten(us), drop)
  {
    if |us| == 1 {
      assert us[1..] == [];
      assert Flatten(us) == us[0];
    } else if us != [] {
      WithoutJoin(us[1..], drop);
      assert us == [us[0]] + us[1..];
      WithoutAppend(us[0] + " ", Join(us[1..]), drop);
      WithoutAppend(us[0], " ", drop);
      WithoutAppend(us[0], Flatten(us[1..]), drop);
    }
  }

  /** What the splitter itself removes: white space, and for sentences the sentence marks. */
  predicate Removed(splitter: Splitter, c: char) {
    IsSpace(c) || (splitter.Sentence? && EndsSentence(c))
  }

  function Drops(splitter: Splitter): char -> bool { c => Removed(splitter, c) }

  lemma UnitsKeep(text: string, splitter: Splitter)
    ensures Without(Flatten(Units(text, splitter)), Drops(splitter)) == Without(text, Drops(splitter))
  {
    hide Without, Flatten, SplitWhere, SplitBlankLines, Tidy;
    var drop := Drops(splitter);
    match splitter
    case Sentence =>
      WithoutTidy(SplitWhere(text, EndsSentence), drop);
      WithoutSplitWhere(text, EndsSentence, drop);
    case Paragraph =>
      WithoutTidy(SplitBlankLines(text), drop);
      WithoutSplitBlankLines(text, drop);
    case Token =>
      WithoutTidy(SplitWhere(text, IsSpace), drop);
      WithoutSplitWhere(text, IsSpace, drop);
  }

  lemma WholeText(text: string, overlap: nat)
    ensures Join([text]) == text && Rebuild([text], overlap) == text
  {
  }

  /**
    End to end: the chunks hold every character of the document, in order and once,
    but for white space and, when splitting by sentences, the sentence marks.
   */
  lemma NoCharacterLost(text: string, cfg: ChunkConfig)
    requires cfg.size > 0
    ensures var drop := Drops(cfg.splitter);
            var whole := if cfg.overlap > 0 then Rebuild(Split(text, cfg), cfg.overlap) else Join(Split(text, cfg));
            Without(whole, drop) == Without(text, drop)
  {
    hide Without, Flatten, Units, Rebuild, Strings.Join, Chunks, Drops;
    var units := Units(text, cfg.splitter);
    if units != [] {
      UnitsKeep(text, cfg.splitter);
      SplitIsLossless(text, cfg);
      assert Drops(cfg.splitter)(' ') by { SpaceDrops(cfg.splitter); }
      WithoutJoin(units, Drops(cfg.splitter));
    } else {
      UnitsKeep(text, cfg.splitter);
      NoChunks(cfg.size, cfg.overlap);
      WholeText(text, cfg.overlap);
    }
  }

  lemma SpaceDrops(splitter: Splitter)
    ensures Drops(splitter)(' ')
  {
  }

  lemma NoChunks(size: nat, overlap: nat)
    ensures Chunks("", [], size, overlap) == []
  {
  }

  // ----- shape and size of the chunks -----

  /** The units each chunk takes, as opposed to what it repeats. */
  function Parts(carry: string, us: seq<string>, size: nat, overlap: nat): seq<seq<string>>
    decreases |us|
  {
    var n := FlushCount(carry, us, size, 1);
    if n == 0 then
      if Blank(Body(carry, us)) then [] else [us]
    else
      [us[..n]] + Parts(LastChars(Body(carry, us[..n]), overlap), us[n..], size, overlap)
  }

  function Concat(parts: seq<seq<string>>): seq<string> {
    if parts == [] then [] else parts[0] + Concat(parts[1..])
  }

  /** What chunk `k` repeats of the chunk before it. */
  function Carry(carry: string, chunks: seq<string>, overlap: nat, k: nat): string
    requires k <= |chunks|
  {
    if k == 0 then carry else LastChars(chunks[k - 1], overlap)
  }

  /** A chunk that repeats `carry` and takes `part`, which reaches `size` with its last unit at the earliest. */
  predicate IsChunk(carry: string, part: seq<string>, size: nat, chunk: string) {
    chunk == Body(carry, part) && (part != [] ==> Below(carry, part, size, |part| - 1))
  }

  ghost predicate WellChunked(carry: string, us: seq<string>, size: nat, overlap: nat,
                              chunks: seq<string>, parts: seq<seq<string>>)
  {
    && |parts| == |chunks| && Concat(parts) == us
    && (forall k :: 0 <= k < |chunks| ==> IsChunk(Carry(carry, chunks, overlap, k), parts[k], size, chunks[k]))
    && (forall k :: 0 <= k < |chunks| - 1 ==> parts[k] != [] && |chunks[k]| >= size)
  }

  /** The last chunk holds no unit exactly when the last unit filled the chunk before it. */
  ghost predicate LastChunk(size: nat, overlap: nat, chunks: seq<string>, parts: seq<seq<string>>)
    requires |parts| == |chunks| > 0
  {
    var last := |chunks| - 1;
    if parts[last] == [] then
      overlap > 0 && last > 0 && |chunks[last - 1]| >= size && chunks[last] == LastChars(chunks[last - 1], overlap)
    else
      overlap == 0 || |chunks[last]| < size
  }

  lemma {:induction false} ChunksWellChunked(carry: string, us: seq<string>, size: nat, overlap: nat)
    requires AllUnits(us) && IsCarry(carry)
    requires (overlap == 0 ==> carry == "") && (overlap > 0 && us == [] ==> carry != "")
    ensures WellChunked(carry, us, size, overlap, Chunks(carry, us, size, overlap), Parts(carry, us, size, overlap))
    ensures us != [] ==>
              var chunks := Chunks(carry, us, size, overlap);
              chunks != [] && LastChunk(size, overlap, chunks, Parts(carry, us, size, overlap))
    ensures us == [] ==> Chunks(carry, us, size, overlap) == (if carry == "" then [] else [carry])
    ensures us == [] ==> Parts(carry, us, size, overlap) == (if carry == "" then [] else [[]])
    decreases |us|
  {
    hide WellChunked, LastChunk, IsChunk, Body, LastChars;
    var n := FlushCount(carry, us, size, 1);
    FlushCountLeast(carry, us, size, 1);
    if n == 0 {
      OneChunk(carry, us, size, overlap);
    } else {
      var c := Body(carry, us[..n]);
      BodyEnd(carry, us[..n]);
      var next := LastChars(c, overlap);
      LastCharsCarry(c, overlap);
      ChunksWellChunked(next, us[n..], size, overlap);
      var rest, more := Chunks(next, us[n..], size, overlap), Parts(next, us[n..], size, overlap);
      FirstIsChunk(carry, us, size, n);
      WellChunkedCons(carry, us[..n], c, us[n..], size, overlap, rest, more);
      RestLength(next, us[n..], size, overlap, rest, more);
      LastChunkCons(us[..n], c, size, overlap, rest, more);
      assert us[..n] + us[n..] == us;
      assert Chunks(carry, us, size, overlap) == [c] + rest;
      assert Parts(carry, us, size, overlap) == [us[..n]] + more;
    }
  }

  lemma OneChunk(carry: string, us: seq<string>, size: nat, overlap: nat)
    requires AllUnits(us) && IsCarry(carry) && Below(carry, us, size, |us|)
    requires us == [] ==> carry != "" || overlap == 0
    ensures Blank(Body(carry, us)) <==> us == [] && carry == ""
    ensures us == [] ==> Body(carry, us) == carry && WellChunked(carry, us, size, overlap, [], [])
    ensures WellChunked(carry, us, size, overlap, [Body(carry, us)], [us])
    ensures us != [] ==> LastChunk(size, overlap, [Body(carry, us)], [us])
  {
    if us != [] { BodyEnd(carry, us); }
    if Body(carry, us) != "" { NotBlank(Body(carry, us)); }
    assert Concat([us]) == us + Concat([us][1..]) == us;
    assert us[..|us|] == us;
  }

  lemma FirstIsChunk(carry: string, us: seq<string>, size: nat, n: nat)
    requires 1 <= n <= |us| && Below(carry, us, size, n - 1)
    ensures IsChunk(carry, us[..n], size, Body(carry, us[..n]))
  {
    forall m | 1 <= m <= n - 1 ensures |Body(carry, us[..n][..m])| < size {
      assert us[..n][..m] == us[..m];
    }
  }

  lemma WellChunkedCons(carry: string, part: seq<string>, c: string, us: seq<string>, size: nat, overlap: nat,
                        rest: seq<string>, more: seq<seq<string>>)
    requires part != [] && IsChunk(carry, part, size, c) && |c| >= size
    requires WellChunked(LastChars(c, overlap), us, size, overlap, rest, more)
    ensures WellChunked(carry, part + us, size, overlap, [c] + rest, [part] + more)
  {
    hide IsChunk, LastChars, LastChunk, Concat;
    var chunks, parts := [c] + rest, [part] + more;
    ConcatCons(part, more);
    forall k | 0 <= k < |chunks|
      ensures IsChunk(Carry(carry, chunks, overlap, k), parts[k], size, chunks[k])
      ensures k < |chunks| - 1 ==> parts[k] != [] && |chunks[k]| >= size
    {
      if k > 0 { LaterChunk(carry, part, c, us, size, overlap, rest, more, k - 1); }
    }
  }

  lemma RestLength(carry: string, us: seq<string>, size: nat, overlap: nat,
                   chunks: seq<string>, parts: seq<seq<string>>)
    requires WellChunked(carry, us, size, overlap, chunks, parts)
    ensures |parts| == |chunks|
  {
  }

  lemma ConcatCons(part: seq<string>, more: seq<seq<string>>)
    ensures Concat([part] + more) == part + Concat(more)
  {
    assert ([part] + more)[1..] == more;
  }

  lemma LastChunkCons(part: seq<string>, c: string, size: nat, overlap: nat, rest: seq<string>, more: seq<seq<string>>)
    requires part != [] && |c| >= size && |more| == |rest|
    requires if rest == [] then overlap == 0
             else || LastChunk(size, overlap, rest, more)
                  || (overlap > 0 && rest == [LastChars(c, overlap)] && more == [[]])
    ensures LastChunk(size, overlap, [c] + rest, [part] + more)
  {
    hide LastChars;
    var chunks, parts, last := [c] + rest, [part] + more, |rest|;
    if rest != [] {
      assert chunks[last] == rest[last - 1] && parts[last] == more[last - 1];
      assert last > 1 ==> chunks[last - 1] == rest[last - 2];
    }
  }

  lemma LaterChunk(carry: string, part: seq<string>, c: string, us: seq<string>, size: nat, overlap: nat,
                   rest: seq<string>, more: seq<seq<string>>, k: nat)
    requires k < |rest| && WellChunked(LastChars(c, overlap), us, size, overlap, rest, more)
    ensures IsChunk(Carry(carry, [c] + rest, overlap, k + 1), ([part] + more)[k + 1], size, ([c] + rest)[k + 1])
    ensures k < |rest| - 1 ==> ([part] + more)[k + 1] != [] && |([c] + rest)[k + 1]| >= size
  {
    hide IsChunk, LastChars;
    assert ([c] + rest)[k + 1] == rest[k] && ([part] + more)[k + 1] == more[k];
    assert IsChunk(Carry(LastChars(c, overlap), rest, overlap, k), more[k], size, rest[k]);
    assert k > 0 ==> ([c] + rest)[k] == rest[k - 1];
  }

  /**
    Shape: the chunks of a document with units, and the units each one takes.  The
    parts are consecutive and make up all units; each chunk is the repeated tail
    of the one before followed by its own units; every chunk but the last reached
    `size`; and only the last can hold nothing but repeated text.
   */
  lemma SplitShape(text: string, cfg: ChunkConfig)
    requires cfg.size > 0 && Units(text, cfg.splitter) != []
    ensures var parts := Parts("", Units(text, cfg.splitter), cfg.size, cfg.overlap);
            && WellChunked("", Units(text, cfg.splitter), cfg.size, cfg.overlap, Split(text, cfg), parts)
            && LastChunk(cfg.size, cfg.overlap, Split(text, cfg), parts)
  {
    UnitsAreUnits(text, cfg.splitter);
    ChunksWellChunked("", Units(text, cfg.splitter), cfg.size, cfg.overlap);
  }

  /** Every later chunk starts with exactly the tail of the chunk before it. */
  lemma SplitOverlaps(text: string, cfg: ChunkConfig, k: nat)
    requires cfg.size > 0 && 1 <= k < |Split(text, cfg)|
    ensures var prev, chunk := Split(text, cfg)[k - 1], Split(text, cfg)[k];
            var n := if |prev| < cfg.overlap then |prev| else cfg.overlap;
            n <= |chunk| && chunk[..n] == prev[|prev| - n..]
  {
    hide Units, Chunks, Parts, Body, LastChars, Concat, LastChunk, Below;
    var units := Units(text, cfg.splitter);
    if units != [] {
      SplitShape(text, cfg);
      var tail := LastChars(Split(text, cfg)[k - 1], cfg.overlap);
      StartsWithCarry(tail, Parts("", units, cfg.size, cfg.overlap)[k]);
      LastCharsAre(Split(text, cfg)[k - 1], cfg.overlap);
    } else {
      UnsplitText(text, cfg);
    }
  }

  lemma StartsWithCarry(carry: string, us: seq<string>)
    ensures carry <= Body(carry, us)
  {
    if carry != "" { BodyOfCarry(carry, us); }
  }

  lemma LastCharsAre(s: string, n: nat)
    ensures var k := if |s| < n then |s| else n; LastChars(s, n) == s[|s| - k..] && |LastChars(s, n)| == k
  {
  }

  function Max(a: nat, b: nat): nat { if a < b then b else a }

  function Longest(us: seq<string>): nat {
    if us == [] then 0 else Max(Longest(us[..|us| - 1]), |us[|us| - 1]|)
  }

  lemma {:induction false} LongestBounds(us: seq<string>, i: nat)
    requires i < |us|
    ensures |us[i]| <= Longest(us)
  {
    if i < |us| - 1 { LongestBounds(us[..|us| - 1], i); }
  }

  lemma {:induction false} PartOfConcat(parts: seq<seq<string>>, k: nat, u: string)
    requires k < |parts| && u in parts[k]
    ensures u in Concat(parts)
  {
    if k == 0 {
    } else {
      PartOfConcat(parts[1..], k - 1, u);
    }
  }

  /**
    Size: a chunk that holds units is at most the larger of `size - 1` and the
    overlap, plus a space and the longest unit.  With an overlap below `size`, no
    chunk is filled longer than it must be: without its last unit it is short.
   */
  lemma SplitBounds(text: string, cfg: ChunkConfig, k: nat)
    requires cfg.size > 0 && k < |Split(text, cfg)| && Units(text, cfg.splitter) != []
    ensures var units := Units(text, cfg.splitter);
            var parts := Parts("", units, cfg.size, cfg.overlap);
            && |parts| == |Split(text, cfg)|
            && (parts[k] != [] ==>
                  && |Split(text, cfg)[k]| <= Max(cfg.size - 1, cfg.overlap) + 1 + Longest(units)
                  && (cfg.overlap < cfg.size ==>
                        |Body(Carry("", Split(text, cfg), cfg.overlap, k), parts[k][..|parts[k]| - 1])| < cfg.size))
  {
    hide Chunks, Parts, Units, Blank, Split;
    SplitShape(text, cfg);
    if Parts("", Units(text, cfg.splitter), cfg.size, cfg.overlap)[k] != [] {
      PartBounds("", Units(text, cfg.splitter), cfg.size, cfg.overlap, Split(text, cfg),
                 Parts("", Units(text, cfg.splitter), cfg.size, cfg.overlap), k);
    }
  }

  lemma PartBounds(carry: string, us: seq<string>, size: nat, overlap: nat,
                   chunks: seq<string>, parts: seq<seq<string>>, k: nat)
    requires size > 0 && |carry| <= overlap && WellChunked(carry, us, size, overlap, chunks, parts)
    requires k < |chunks| && parts[k] != []
    ensures |chunks[k]| <= Max(size - 1, overlap) + 1 + Longest(us)
    ensures overlap < size ==> |Body(Carry(carry, chunks, overlap, k), parts[k][..|parts[k]| - 1])| < size
  {
    var before, part := Carry(carry, chunks, overlap, k), parts[k];
    var u := part[|part| - 1];
    PartOfConcat(parts, k, u);
    var i :| 0 <= i < |us| && us[i] == u;
    LongestBounds(us, i);
    assert IsChunk(before, part, size, chunks[k]);
    assert |Body(before, part[..|part| - 1])| <= Max(size - 1, overlap) by {
      if |part| == 1 {
        assert Body(before, part[..0]) == before;
      } else {
        assert |Body(before, part[..|part| - 1])| < size;
      }
    }
  }
}
