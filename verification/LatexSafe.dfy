/** Escaped text is safe to include in LaTeX: no special character in it stands bare. */
module LatexSafe {
  import opened LatexText

  predicate IsLetter(c: char) {
    'a' <= c <= 'z' || 'A' <= c <= 'Z'
  }

  const QUOTED: set<char> := {'&', '%', '$', '#', '_', '{', '}'}

  predicate After(out: string, i: nat, c: char) {
    0 < i <= |out| && out[i - 1] == c
  }

  predicate Before(out: string, i: nat, c: char) {
    i + 1 < |out| && out[i + 1] == c
  }

  /** The character at position i is harmless where it stands. A special stands behind a backslash; a
      backslash begins a command or quotes a special; an unquoted brace belongs to an empty group;
      accents, angles and bars do not occur. */
  predicate Harmless(out: string, i: nat)
    requires i < |out|
  {
    match out[i]
    case '~' => false
    case '^' => false
    case '<' => false
    case '>' => false
    case '|' => false
    case '\\' => i + 1 < |out| && (IsLetter(out[i + 1]) || out[i + 1] in QUOTED)
    case '{' => After(out, i, '\\') || Before(out, i, '}')
    case '}' => After(out, i, '\\') || (After(out, i, '{') && !After(out, i - 1, '\\'))
    case c => c in QUOTED ==> After(out, i, '\\')
  }

  ghost predicate Safe(out: string) {
    forall i: nat {:trigger Harmless(out, i)} :: i < |out| ==> Harmless(out, i)
  }

  lemma SafeJoined(a: string, b: string)
    requires Safe(a) && Safe(b)
    ensures Safe(a + b)
  {
    var out := a + b;
    forall i: nat | i < |out|
      ensures Harmless(out, i)
    {
      if i < |a| {
        assert Harmless(a, i);
        assert i + 1 < |a| ==> out[i + 1] == a[i + 1];
        assert i > 0 ==> out[i - 1] == a[i - 1];
        assert i > 1 ==> out[i - 2] == a[i - 2];
      } else {
        var k := i - |a|;
        assert Harmless(b, k);
        assert k + 1 < |b| ==> out[i + 1] == b[k + 1];
        assert k > 0 ==> out[i - 1] == b[k - 1];
        assert k > 1 ==> out[i - 2] == b[k - 2];
        assert |a| > 0 ==> Harmless(a, |a| - 1);
      }
    }
  }

  /** A command: a backslash, letters and an empty group. */
  lemma CommandIsSafe(e: string)
    requires |e| > 3 && e[0] == '\\' && e[|e| - 2] == '{' && e[|e| - 1] == '}'
    requires forall k :: 1 <= k < |e| - 2 ==> IsLetter(e[k])
    ensures Safe(e)
  {
    forall i: nat | i < |e|
      ensures Harmless(e, i)
    {
      if 1 <= i < |e| - 2 {
        assert IsLetter(e[i]);
      }
    }
  }

  lemma CharIsSafe(c: char)
    ensures Safe(EscapeChar(c))
  {
    var e := EscapeChar(c);
    if |e| > 2 {
      CommandIsSafe(e);
    } else {
      forall i: nat | i < |e|
        ensures Harmless(e, i)
      {
      }
    }
  }

  lemma BreakIsSafe()
    ensures Safe(BREAK) && Safe("")
  {
    forall i: nat | i < |BREAK|
      ensures Harmless(BREAK, i)
    {
    }
  }

  /** The plain escape is safe. */
  lemma {:induction false} EscapeIsSafe(s: string)
    ensures Safe(Escape(s, EscapeChar))
  {
    BreakIsSafe();
    if s != "" {
      CharIsSafe(s[0]);
      EscapeIsSafe(s[1..]);
      SafeJoined(EscapeChar(s[0]), Escape(s[1..], EscapeChar));
    }
  }

  /** So is the breakable form. */
  lemma {:induction false} BreakableIsSafe(s: string, n: nat)
    requires n <= |s|
    ensures Safe(Spelled(s, n, EscapeChar, BREAK))
    decreases n
  {
    BreakIsSafe();
    if n > 0 {
      BreakableIsSafe(s, n - 1);
      CharIsSafe(s[n - 1]);
      SafeJoined(if BreakBefore(s, n - 1) then BREAK else "", EscapeChar(s[n - 1]));
      SafeJoined(Spelled(s, n - 1, EscapeChar, BREAK), Piece(s, n - 1, EscapeChar, BREAK));
    }
  }
}
