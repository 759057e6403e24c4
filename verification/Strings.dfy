/** Strings as their sequence of Unicode characters: trimming, splitting and joining. */
module Strings {
  import opened Prelude

  /** The Unicode White_Space property, which trimming and whitespace splitting use. */
  predicate IsSpace(c: char) {
    || '\t' <= c <= '\r' || c == ' ' || c == '\U{0085}' || c == '\U{00A0}' || c == '\U{1680}'
    || '\U{2000}' <= c <= '\U{200A}' || c == '\U{2028}' || c == '\U{2029}' || c == '\U{202F}'
    || c == '\U{205F}' || c == '\U{3000}'
  }

  /** Those characters, one by one. */
  lemma SpacesAre(c: char)
    ensures IsSpace(c)
       <==> c in ['\U{0009}', '\U{000A}', '\U{000B}', '\U{000C}', '\U{000D}', '\U{0020}', '\U{0085}', '\U{00A0}',
                  '\U{1680}', '\U{2000}', '\U{2001}', '\U{2002}', '\U{2003}', '\U{2004}', '\U{2005}', '\U{2006}',
                  '\U{2007}', '\U{2008}', '\U{2009}', '\U{200A}', '\U{2028}', '\U{2029}', '\U{202F}', '\U{205F}',
                  '\U{3000}']
  {
  }

  function TrimStart(s: string): string {
    if s != "" && IsSpace(s[0]) then TrimStart(s[1..]) else s
  }

  function TrimEnd(s: string): string {
    if s != "" && IsSpace(s[|s| - 1]) then TrimEnd(s[..|s| - 1]) else s
  }

  function Trim(s: string): string { TrimEnd(TrimStart(s)) }

  predicate Blank(s: string) { Trim(s) == "" }

  lemma {:induction false} TrimStartShape(s: string)
    ensures TrimStart(s) == "" || !IsSpace(TrimStart(s)[0])
  {
    if s != "" && IsSpace(s[0]) { TrimStartShape(s[1..]); }
  }

  lemma {:induction false} TrimEndShape(s: string)
    ensures TrimEnd(s) <= s
    ensures TrimEnd(s) == "" || !IsSpace(TrimEnd(s)[|TrimEnd(s)| - 1])
    ensures s != "" && !IsSpace(s[|s| - 1]) ==> TrimEnd(s) == s
    ensures TrimEnd(s) == "" <==> forall i :: 0 <= i < |s| ==> IsSpace(s[i])
  {
    if s != "" && IsSpace(s[|s| - 1]) { TrimEndShape(s[..|s| - 1]); }
  }

  lemma {:induction false} BlankIff(s: string)
    ensures Blank(s) <==> forall c :: c in s ==> IsSpace(c)
  {
    if s == "" {
    } else {
      if IsSpace(s[0]) {
        BlankIff(s[1..]);
        assert s == [s[0]] + s[1..];
      } else {
        TrimEndShape(s);
      }
    }
  }

  /** What trimming takes away is white space, at both ends, and all of it there. */
  lemma TrimTakesSpaces(s: string) returns (before: string, after: string)
    ensures s == before + Trim(s) + after
    ensures forall c :: c in before || c in after ==> IsSpace(c)
    ensures Trim(s) == "" || (!IsSpace(Trim(s)[0]) && !IsSpace(Trim(s)[|Trim(s)| - 1]))
  {
    var rest := TrimStart(s);
    before := TrimStartTakes(s);
    after := TrimEndTakes(rest);
    TrimStartShape(s);
    TrimEndShape(rest);
  }

  lemma {:induction false} TrimStartTakes(s: string) returns (before: string)
    ensures s == before + TrimStart(s) && forall c :: c in before ==> IsSpace(c)
  {
    if s == "" || !IsSpace(s[0]) {
      before := "";
    } else {
      var more := TrimStartTakes(s[1..]);
      before := [s[0]] + more;
      assert s == [s[0]] + s[1..];
    }
  }

  lemma {:induction false} TrimEndTakes(s: string) returns (after: string)
    ensures s == TrimEnd(s) + after && forall c :: c in after ==> IsSpace(c)
  {
    if s == "" || !IsSpace(s[|s| - 1]) {
      after := "";
    } else {
      var more := TrimEndTakes(s[..|s| - 1]);
      after := more + [s[|s| - 1]];
      assert s == s[..|s| - 1] + [s[|s| - 1]];
    }
  }

  lemma TrimWithin(s: string, c: char)
    requires c in Trim(s)
    ensures c in s
  {
    var before, after := TrimTakesSpaces(s);
  }

  /** The pieces of `s` between the characters that satisfy `cut`. */
  function SplitWhere(s: string, cut: char -> bool): (pieces: seq<string>)
    ensures pieces != []
  {
    if s == "" then [""] else
    var rest := SplitWhere(s[1..], cut);
    if cut(s[0]) then [""] + rest else [[s[0]] + rest[0]] + rest[1..]
  }

  /** The test for one separator. */
  function Is(sep: char): char -> bool { c => c == sep }

  /** The pieces with one separator between neighbours. */
  function Join(pieces: seq<string>, sep: char): string {
    if pieces == [] then ""
    else if |pieces| == 1 then pieces[0]
    else pieces[0] + [sep] + Join(pieces[1..], sep)
  }

  /** Joining undoes splitting, and no piece holds the separator. */
  lemma {:induction false} JoinSplit(s: string, sep: char)
    ensures Join(SplitWhere(s, Is(sep)), sep) == s
    ensures forall p :: p in SplitWhere(s, Is(sep)) ==> sep !in p
  {
    if s == "" {
    } else {
      var rest := SplitWhere(s[1..], Is(sep));
      JoinSplit(s[1..], sep);
      if s[0] == sep {
        assert ([""] + rest)[1..] == rest;
      } else {
        var pieces := [[s[0]] + rest[0]] + rest[1..];
        assert pieces[1..] == rest[1..];
      }
    }
  }

  /** Without a cut there is one piece. */
  lemma {:induction false} SplitNowhere(s: string, cut: char -> bool)
    requires forall c :: c in s ==> !cut(c)
    ensures SplitWhere(s, cut) == [s]
  {
    if s == "" {
    } else {
      SplitNowhere(s[1..], cut);
      assert [s[0]] + s[1..] == s;
    }
  }

  lemma SplitStep(s: string, cut: char -> bool)
    requires s != ""
    ensures var rest := SplitWhere(s[1..], cut);
            SplitWhere(s, cut) == if cut(s[0]) then [""] + rest else [[s[0]] + rest[0]] + rest[1..]
  {
  }

  /** Every character that satisfies `cut` cuts. */
  lemma {:induction false} SplitAt(a: string, c: char, b: string, cut: char -> bool)
    requires cut(c)
    ensures SplitWhere(a + [c] + b, cut) == SplitWhere(a, cut) + SplitWhere(b, cut)
  {
    var s, right := a + [c] + b, SplitWhere(b, cut);
    if a == "" {
      assert s[1..] == b;
    } else {
      var left := SplitWhere(a[1..], cut);
      SplitAt(a[1..], c, b, cut);
      assert s[1..] == a[1..] + [c] + b && s[0] == a[0];
      assert (left + right)[0] == left[0] && (left + right)[1..] == left[1..] + right;
      SplitStep(s, cut);
      SplitStep(a, cut);
      hide SplitWhere;
      if cut(a[0]) {
        Regroup([""], left, right);
      } else {
        Regroup([[a[0]] + left[0]], left[1..], right);
      }
    }
  }

  /** No piece holds a character that cuts. */
  lemma {:induction false} PiecesUncut(s: string, cut: char -> bool)
    ensures forall p, c :: p in SplitWhere(s, cut) && c in p ==> !cut(c)
  {
    if s == "" {
    } else {
      var rest := SplitWhere(s[1..], cut);
      PiecesUncut(s[1..], cut);
      forall p, c | p in SplitWhere(s, cut) && c in p ensures !cut(c) {
        assert p in rest || (!cut(s[0]) && p == [s[0]] + rest[0]) || p == "";
      }
    }
  }

  lemma SplitFirst(a: string, b: string, sep: char)
    requires sep !in a
    ensures SplitWhere(a, Is(sep)) == [a]
    ensures SplitWhere(a + [sep] + b, Is(sep)) == [a] + SplitWhere(b, Is(sep))
  {
    SplitNowhere(a, Is(sep));
    SplitAt(a, sep, b, Is(sep));
  }

  /** Splitting undoes joining pieces that do not hold the separator. */
  lemma {:induction false} SplitJoin(pieces: seq<string>, sep: char)
    requires pieces != [] && forall i :: 0 <= i < |pieces| ==> sep !in pieces[i]
    ensures SplitWhere(Join(pieces, sep), Is(sep)) == pieces
  {
    if |pieces| == 1 {
      SplitFirst(pieces[0], "", sep);
    } else {
      SplitJoin(pieces[1..], sep);
      SplitFirst(pieces[0], Join(pieces[1..], sep), sep);
    }
  }

  lemma {:induction false} JoinAppend(us: seq<string>, vs: seq<string>, sep: char)
    requires us != [] && vs != []
    ensures Join(us + vs, sep) == Join(us, sep) + [sep] + Join(vs, sep)
  {
    var ws := us + vs;
    if |us| > 1 {
      assert ws[1..] == us[1..] + vs;
      JoinAppend(us[1..], vs, sep);
    } else {
      assert ws[1..] == vs;
    }
  }
}
