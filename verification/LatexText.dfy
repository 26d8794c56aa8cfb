/** Escaping user text for LaTeX, with break points in long tokens, and the decoder that undoes it. */
module LatexText {

  const BREAK_RUN: nat := 20
  const BREAK: string := "\\discretionary{}{}{}"

  /** The replacement of one character. */
  function EscapeChar(c: char): string {
    if c == '\\' then "\\textbackslash{}"
    else if c == '~' then "\\textasciitilde{}"
    else if c == '^' then "\\textasciicircum{}"
    else if c == '<' then "\\textless{}"
    else if c == '>' then "\\textgreater{}"
    else if c == '|' then "\\textbar{}"
    else if c in {'&', '%', '$', '#', '_', '{', '}'} then ['\\', c]
    else [c]
  }

  // A text is written character by character through a table of replacements. What
  // follows up to the decoder holds of any table and any break text.

  type Table = char -> string

  function Escape(s: string, table: Table): string {
    if s == "" then "" else table(s[0]) + Escape(s[1..], table)
  }

  /** unicode.IsSpace: the White_Space property. */
  predicate IsSpace(c: char) {
    || '\t' <= c <= '\r' || c == ' ' || c == '\U{85}' || c == '\U{A0}' || c == '\U{1680}'
    || '\U{2000}' <= c <= '\U{200A}' || c == '\U{2028}' || c == '\U{2029}' || c == '\U{202F}' || c == '\U{205F}' ||
      c == '\U{3000}'
  }

  // Where break points go

  /** Positions a to b are one whole token: no space inside, and a space or the end at either side. */
  predicate IsToken(s: string, a: nat, b: nat) {
    && a < b <= |s|
    && (forall k :: a <= k < b ==> !IsSpace(s[k]))
    && (a == 0 || IsSpace(s[a - 1]))
    && (b == |s| || IsSpace(s[b]))
  }

  /** A break point stands before every character but the first of a token longer than the cap. */
  ghost predicate BreakBefore(s: string, i: nat) {
    exists a: nat, b: nat :: IsToken(s, a, b) && a < i < b && b - a > BREAK_RUN
  }

  ghost function Piece(s: string, i: nat, table: Table, brk: string): string
    requires i < |s|
  {
    (if BreakBefore(s, i) then brk else "") + table(s[i])
  }

  /** The first n characters of the text, each escaped and broken before where it must be. */
  ghost function Spelled(s: string, n: nat, table: Table, brk: string): string
    requires n <= |s|
  {
    if n == 0 then "" else Spelled(s, n - 1, table, brk) + Piece(s, n - 1, table, brk)
  }

  lemma OneToken(s: string, a: nat, b: nat, x: nat, y: nat, i: nat)
    requires IsToken(s, a, b) && IsToken(s, x, y) && a <= i < b && x <= i < y
    ensures a == x && b == y
  {
  }

  /** Inside a token of more than the cap's characters every character but the first has a break
      point before it, inside a shorter one none has. */
  lemma BreaksInToken(s: string, a: nat, b: nat, k: nat)
    requires IsToken(s, a, b) && a <= k < b
    ensures BreakBefore(s, k) <==> k > a && b - a > BREAK_RUN
  {
    if BreakBefore(s, k) {
      var x: nat, y: nat :| IsToken(s, x, y) && x < k < y && y - x > BREAK_RUN;
      OneToken(s, a, b, x, y, k);
    }
  }

  // The loop

  function Broken(run: string, table: Table, brk: string): string {
    if run == "" then ""
    else
      var k := |run| - 1;
      Broken(run[..k], table, brk) + (if k > 0 then brk else "") + table(run[k])
  }

  /** What a finished token writes. */
  function Token(run: string, table: Table, brk: string): string {
    TokenSoFar(|run| > BREAK_RUN, run, table, brk)
  }

  lemma {:induction false} EscapeLast(s: string, c: char, table: Table)
    ensures Escape(s + [c], table) == Escape(s, table) + table(c)
  {
    var t := s + [c];
    if s == "" {
      assert t[0] == c && t[1..] == "";
      assert Escape(t, table) == table(c) + Escape(t[1..], table);
    } else {
      EscapeLast(s[1..], c, table);
      assert t[0] == s[0] && t[1..] == s[1..] + [c];
    }
  }

  lemma BrokenLast(run: string, c: char, table: Table, brk: string)
    ensures Broken(run + [c], table, brk) == Broken(run, table, brk) + (if |run| > 0 then brk else "") + table(c)
  {
    assert (run + [c])[..|run|] == run;
  }

  function TokenSoFar(long: bool, run: string, table: Table, brk: string): string {
    if long then Broken(run, table, brk) else Escape(run, table)
  }

  lemma TokenLast(long: bool, run: string, c: char, table: Table, brk: string)
    ensures TokenSoFar(long, run + [c], table, brk) == TokenSoFar(long, run, table, brk) + ((if long &&
      |run| > 0 then brk else "") + table(c))
  {
    EscapeLast(run, c, table);
    BrokenLast(run, c, table, brk);
  }

  lemma {:induction false} TokenSpelled(s: string, a: nat, b: nat, n: nat, table: Table, brk: string)
    requires IsToken(s, a, b) && a <= n <= b
    ensures Spelled(s, n, table, brk) == Spelled(s, a, table, brk) + TokenSoFar(b - a > BREAK_RUN, s[a..n], table, brk)
    decreases n
  {
    if n == a {
      assert s[a..n] == "";
    } else {
      var k := n - 1;
      TokenSpelled(s, a, b, k, table, brk);
      BreaksInToken(s, a, b, k);
      assert s[a..n] == s[a..k] + [s[k]];
      TokenLast(b - a > BREAK_RUN, s[a..k], s[k], table, brk);
      Reassociate(Spelled(s, a, table, brk), TokenSoFar(b - a > BREAK_RUN, s[a..k], table, brk),
        Piece(s, k, table, brk));
    }
  }

  lemma Reassociate(x: string, y: string, z: string)
    ensures (x + y) + z == x + (y + z)
  {
  }

  lemma TokenWritten(s: string, a: nat, b: nat, table: Table, brk: string)
    requires a == b <= |s| || IsToken(s, a, b)
    ensures Spelled(s, b, table, brk) == Spelled(s, a, table, brk) + Token(s[a..b], table, brk)
  {
    if a < b {
      TokenSpelled(s, a, b, b, table, brk);
    }
  }

  lemma SpaceWritten(s: string, a: nat, i: nat)
    requires a <= i < |s| && IsSpace(s[i]) && (a == i || IsToken(s, a, i))
    ensures Spelled(s, i + 1, EscapeChar, BREAK) == Spelled(s, a, EscapeChar, BREAK) +
      Token(s[a..i], EscapeChar, BREAK) + [s[i]]
  {
    TokenWritten(s, a, i, EscapeChar, BREAK);
    assert EscapeChar(s[i]) == [s[i]];
  }

  /** The characters since position a, up to i, are a token so far. */
  predicate Open(s: string, a: nat, i: nat) {
    && a <= i <= |s|
    && (forall k :: a <= k < i ==> !IsSpace(s[k]))
    && (a == 0 || IsSpace(s[a - 1]))
  }

  /** Writes out a finished token. */
  method Flush(b: string, run: string) returns (c: string)
    ensures c == b + Token(run, EscapeChar, BREAK)
  {
    if |run| <= BREAK_RUN {
      c := b + Escape(run, EscapeChar);
    } else {
      c := "";
      for i := 0 to |run|
        invariant c == Broken(run[..i], EscapeChar, BREAK)
      {
        BrokenLast(run[..i], run[i], EscapeChar, BREAK);
        assert run[..i] + [run[i]] == run[..i + 1];
        if i > 0 {
          c := c + BREAK;
        }
        c := c + EscapeChar(run[i]);
      }
      assert run[..|run|] == run;
      c := b + c;
    }
  }

  /** Wraps long tokens. */
  method LatexBreakable(s: string) returns (b: string)
    ensures b == Spelled(s, |s|, EscapeChar, BREAK)
  {
    b := "";
    var run := "";
    ghost var a := 0;
    for i := 0 to |s|
      invariant Open(s, a, i) && run == s[a..i]
      invariant b == Spelled(s, a, EscapeChar, BREAK)
    {
      if IsSpace(s[i]) {
        SpaceWritten(s, a, i);
        b := Flush(b, run);
        run, a := "", i + 1;
        b := b + [s[i]];
      } else {
        run := run + [s[i]];
      }
    }
    TokenWritten(s, a, |s|, EscapeChar, BREAK);
    b := Flush(b, run);
  }

  // Undoing it

  /** Reading what a table writes, character by character, gives what another table writes. */
  ghost predicate Reads(undo: string -> string, table: Table, image: Table) {
    undo("") == "" && forall c: char, rest: string :: undo(table(c) + rest) == image(c) + undo(rest)
  }

  ghost predicate Skips(undo: string -> string, brk: string) {
    forall rest: string :: undo(brk + rest) == undo(rest)
  }

  lemma UndoPiece(s: string, k: nat, rest: string, undo: string -> string, table: Table, brk: string, image: Table)
    requires k < |s| && Reads(undo, table, image) && Skips(undo, brk)
    ensures undo(Piece(s, k, table, brk) + rest) == image(s[k]) + undo(rest)
  {
    var e := table(s[k]);
    if BreakBefore(s, k) {
      Reassociate(brk, e, rest);
    } else {
      assert "" + e == e;
    }
  }

  lemma {:induction false} UndoSpelled(s: string, n: nat, rest: string, undo: string -> string, table: Table,
      brk: string, image: Table)
    requires n <= |s| && Reads(undo, table, image) && Skips(undo, brk)
    ensures undo(Spelled(s, n, table, brk) + rest) == Escape(s[..n], image) + undo(rest)
    decreases n
  {
    if n == 0 {
      assert "" + rest == rest;
    } else {
      var k := n - 1;
      var last := Piece(s, k, table, brk);
      Reassociate(Spelled(s, k, table, brk), last, rest);
      UndoSpelled(s, k, last + rest, undo, table, brk, image);
      UndoPiece(s, k, rest, undo, table, brk, image);
      EscapeLast(s[..k], s[k], image);
      assert s[..n] == s[..k] + [s[k]];
      Reassociate(Escape(s[..k], image), image(s[k]), undo(rest));
    }
  }

  lemma UndoAll(s: string, undo: string -> string, table: Table, brk: string, image: Table)
    requires Reads(undo, table, image) && Skips(undo, brk)
    ensures undo(Spelled(s, |s|, table, brk)) == Escape(s, image)
  {
    UndoSpelled(s, |s|, "", undo, table, brk, image);
    assert Spelled(s, |s|, table, brk) + "" == Spelled(s, |s|, table, brk) && s[..|s|] == s;
  }

  // The decoder

  function At(out: string, k: nat): char {
    if k < |out| then out[k] else ' '
  }

  /** The first item of an escaped text: how long it is, and the text it stands for. */
  function First(out: string): (r: (nat, string))
    ensures 0 < r.0
  {
    var kind := At(out, 5);
    if At(out, 0) != '\\' then (1, [At(out, 0)])
    else if At(out, 1) == 'd' then (20, "")
    else if At(out, 1) != 't' then (2, [At(out, 1)])
    else if kind == 'l' then (11, "<")
    else if kind == 'g' then (14, ">")
    else if kind == 'a' then (if At(out, 10) == 't' then (17, "~") else (18, "^"))
    else if At(out, 7) == 'c' then (16, "\\")
    else (10, "|")
  }

  function Decode(out: string): string
    decreases |out|
  {
    if out == "" then ""
    else
      var first := First(out);
      first.1 + if first.0 >= |out| then "" else Decode(out[first.0..])
  }

  lemma DecodeItem(item: string, rest: string)
    requires item != "" && First(item + rest).0 == |item|
    ensures Decode(item + rest) == First(item + rest).1 + Decode(rest)
  {
    assert (item + rest)[|item|..] == rest;
  }

  lemma FirstReadsBack(c: char, rest: string)
    ensures EscapeChar(c) != "" && First(EscapeChar(c) + rest) == (|EscapeChar(c)|, [c])
  {
  }

  lemma DecodeReads()
    ensures Reads(Decode, EscapeChar, (c: char) => [c]) && Skips(Decode, BREAK)
  {
    forall c: char, rest: string
      ensures Decode(EscapeChar(c) + rest) == [c] + Decode(rest)
    {
      FirstReadsBack(c, rest);
      DecodeItem(EscapeChar(c), rest);
    }
    forall rest: string
      ensures Decode(BREAK + rest) == Decode(rest)
    {
      assert |BREAK| == 20 && BREAK[0] == '\\' && BREAK[1] == 'd';
      DecodeItem(BREAK, rest);
    }
  }

  lemma {:induction false} CopyOf(s: string)
    ensures Escape(s, (c: char) => [c]) == s
  {
    if s != "" {
      CopyOf(s[1..]);
    }
  }

  /** The decoder recovers every text from its breakable form, so no two texts share one. */
  lemma BreakableDecodes(s: string)
    ensures Decode(Spelled(s, |s|, EscapeChar, BREAK)) == s
  {
    DecodeReads();
    var copy := (c: char) => [c];
    assert Reads(Decode, EscapeChar, copy);
    UndoAll(s, Decode, EscapeChar, BREAK, copy);
    CopyOf(s);
  }

  /** So does the plain escape. */
  lemma {:induction false} EscapeDecodes(s: string)
    ensures Decode(Escape(s, EscapeChar)) == s
  {
    if s != "" {
      EscapeDecodes(s[1..]);
      DecodeReads();
    }
  }

  // Break points apart

  /** A text without its break points. */
  function Without(brk: string, out: string): string
    requires brk != ""
    decreases |out|
  {
    if out == "" then ""
    else if brk <= out then Without(brk, out[|brk|..])
    else [out[0]] + Without(brk, out[1..])
  }

  lemma FirstStays(brk: string, out: string, k: nat)
    requires k < |brk| && k < |out| && out[k] != brk[k]
    ensures Without(brk, out) == [out[0]] + Without(brk, out[1..])
  {
  }

  lemma {:induction false} PlainStays(brk: string, x: string, rest: string)
    requires brk != "" && brk[0] !in x
    ensures Without(brk, x + rest) == x + Without(brk, rest)
  {
    var out := x + rest;
    if x == "" {
      assert out == rest;
    } else {
      assert out[0] == x[0] && x[0] in x;
      FirstStays(brk, out, 0);
      assert out[1..] == x[1..] + rest;
      PlainStays(brk, x[1..], rest);
      Reassociate([x[0]], x[1..], Without(brk, rest));
      assert [x[0]] + x[1..] == x;
    }
  }

  /** A command other than the break keeps its place. */
  lemma CommandStays(brk: string, e: string, rest: string)
    requires |brk| > 1 && |e| > 1 && e[1] != brk[1] && brk[0] !in e[1..]
    ensures Without(brk, e + rest) == e + Without(brk, rest)
  {
    var out := e + rest;
    assert out[0] == e[0] && out[1] == e[1];
    FirstStays(brk, out, 1);
    assert out[1..] == e[1..] + rest;
    PlainStays(brk, e[1..], rest);
    Reassociate([e[0]], e[1..], Without(brk, rest));
    assert [e[0]] + e[1..] == e;
  }

  lemma BreakGoes(brk: string, rest: string)
    requires brk != ""
    ensures Without(brk, brk + rest) == Without(brk, rest)
  {
    assert (brk + rest)[|brk|..] == rest;
  }

  ghost predicate Distinct(brk: string, table: Table) {
    && |brk| > 1
    && forall c :: brk[0] !in table(c) || (|table(c)| > 1 && table(c)[1] != brk[1] && brk[0] !in table(c)[1..])
  }

  lemma WithoutReads(brk: string, table: Table)
    requires Distinct(brk, table)
    ensures Reads(out => Without(brk, out), table, table) && Skips(out => Without(brk, out), brk)
  {
    forall c: char, rest: string
      ensures Without(brk, table(c) + rest) == table(c) + Without(brk, rest)
    {
      if brk[0] in table(c) {
        CommandStays(brk, table(c), rest);
      } else {
        PlainStays(brk, table(c), rest);
      }
    }
    forall rest: string
      ensures Without(brk, brk + rest) == Without(brk, rest)
    {
      BreakGoes(brk, rest);
    }
  }

  lemma WithoutBreaks(s: string, table: Table, brk: string)
    requires Distinct(brk, table)
    ensures Without(brk, Spelled(s, |s|, table, brk)) == Escape(s, table)
  {
    var undo := out => Without(brk, out);
    WithoutReads(brk, table);
    assert Reads(undo, table, table) && Skips(undo, brk);
    UndoAll(s, undo, table, brk, table);
  }

  lemma EscapeShape(c: char)
    ensures '\\' !in EscapeChar(c) || (|EscapeChar(c)| > 1 && EscapeChar(c)[1] != 'd' && '\\' !in EscapeChar(c)[1..])
  {
    var e := EscapeChar(c);
    if e != [c] {
      assert e[1] != 'd' && forall k :: 1 <= k < |e| ==> e[k] != '\\';
    }
  }

  /** Break points apart, the breakable form is the plain escape. */
  lemma BreaksAreAllThatDiffers(s: string)
    ensures Without(BREAK, Spelled(s, |s|, EscapeChar, BREAK)) == Escape(s, EscapeChar)
  {
    EscapesAreDistinct();
    WithoutBreaks(s, EscapeChar, BREAK);
  }

  lemma EscapesAreDistinct()
    ensures Distinct(BREAK, EscapeChar)
  {
    assert |BREAK| > 1 && BREAK[0] == '\\' && BREAK[1] == 'd';
    forall c
      ensures '\\' !in EscapeChar(c) || (|EscapeChar(c)| > 1 && EscapeChar(c)[1] != 'd' && '\\' !in EscapeChar(c)[1..])
    {
      EscapeShape(c);
    }
  }

  // How far text may run on

  /** Every character outside the spaces lies in a token. */
  lemma {:induction false} TokenFrom(s: string, i: nat) returns (a: nat)
    requires i < |s| && !IsSpace(s[i])
    ensures a <= i && (forall k :: a <= k <= i ==> !IsSpace(s[k])) && (a == 0 || IsSpace(s[a - 1]))
  {
    if i == 0 || IsSpace(s[i - 1]) {
      a := i;
    } else {
      a := TokenFrom(s, i - 1);
    }
  }

  lemma {:induction false} TokenTo(s: string, i: nat) returns (b: nat)
    requires i <= |s|
    ensures i <= b <= |s| && (forall k :: i <= k < b ==> !IsSpace(s[k])) && (b == |s| || IsSpace(s[b]))
    decreases |s| - i
  {
    if i == |s| || IsSpace(s[i]) {
      b := i;
    } else {
      b := TokenTo(s, i + 1);
    }
  }

  /** In any stretch of more than the cap's characters there is a space, or every character after
      the first has a break point before it. */
  lemma NoLongStretch(s: string, i: nat, j: nat)
    requires i + BREAK_RUN < j <= |s|
    ensures (exists k :: i <= k < j && IsSpace(s[k])) || (forall k: nat :: i < k < j ==> BreakBefore(s, k))
  {
    if forall k :: i <= k < j ==> !IsSpace(s[k]) {
      var a := TokenFrom(s, i);
      var b := TokenTo(s, i);
      assert b >= j;
      assert IsToken(s, a, b);
    }
  }

  /** A text whose tokens all keep within the cap is simply escaped. */
  lemma {:induction false} ShortTextIsEscaped(s: string, n: nat)
    requires n <= |s| && forall a: nat, b: nat :: IsToken(s, a, b) ==> b - a <= BREAK_RUN
    ensures Spelled(s, n, EscapeChar, BREAK) == Escape(s[..n], EscapeChar)
    decreases n
  {
    if n > 0 {
      ShortTextIsEscaped(s, n - 1);
      EscapeLast(s[..n - 1], s[n - 1], EscapeChar);
      assert s[..n] == s[..n - 1] + [s[n - 1]];
    }
  }
}
