/**
 * Text clean-up applied to user messages before a number is parsed.
 *
 * `parse_amount` and `parse_rate` delete every space and turn every comma
 * into a dot (`text.replace(" ", "").replace(",", ".")`) before calling
 * `float`; `parse_term` and the name step use `strip()`.  The numeric
 * parsers themselves are not part of this model.
 */
module TextInput {

  /** `s.replace(" ", "")`. */
  function RemoveSpaces(s: string): string
  {
    if s == [] then []
    else (if s[0] == ' ' then [] else [s[0]]) + RemoveSpaces(s[1..])
  }

  /** `s.replace(",", ".")`. */
  function CommasToDots(s: string): string
  {
    if s == [] then []
    else [if s[0] == ',' then '.' else s[0]] + CommasToDots(s[1..])
  }

  /** The text `parse_amount` and `parse_rate` hand to `float`. */
  function Normalize(s: string): string
  {
    CommasToDots(RemoveSpaces(s))
  }

  /** What normalisation does to one character. */
  function NormalizeChar(c: char): string
  {
    if c == ' ' then [] else if c == ',' then ['.'] else [c]
  }

  /** Normalisation works character by character: it distributes over
      concatenation, and a single character is dropped (a space), turned into a
      dot (a comma) or kept.  Together these say every other character keeps
      its place in order. */
  lemma {:induction false} NormalizeConcat(a: string, b: string)
    ensures Normalize(a + b) == Normalize(a) + Normalize(b)
  {
    RemoveSpacesConcat(a, b);
    CommasToDotsConcat(RemoveSpaces(a), RemoveSpaces(b));
  }

  lemma NormalizeSingle(c: char)
    ensures Normalize([c]) == NormalizeChar(c)
  {
    assert [c][1..] == [];
    assert RemoveSpaces([c]) == if c == ' ' then [] else [c];
    if c != ' ' {
      assert CommasToDots([c]) == [if c == ',' then '.' else c];
    }
  }

  /** Normalising a text with one character in the middle. */
  lemma NormalizeAround(a: string, c: char, b: string)
    ensures Normalize(a + [c] + b) == Normalize(a) + NormalizeChar(c) + Normalize(b)
  {
    NormalizeConcat(a + [c], b);
    NormalizeConcat(a, [c]);
    NormalizeSingle(c);
  }

  lemma {:induction false} RemoveSpacesConcat(a: string, b: string)
    ensures RemoveSpaces(a + b) == RemoveSpaces(a) + RemoveSpaces(b)
  {
    if a == [] {
      assert a + b == b;
    } else {
      assert (a + b)[1..] == a[1..] + b;
      RemoveSpacesConcat(a[1..], b);
    }
  }

  lemma {:induction false} CommasToDotsConcat(a: string, b: string)
    ensures CommasToDots(a + b) == CommasToDots(a) + CommasToDots(b)
  {
    if a == [] {
      assert a + b == b;
    } else {
      assert (a + b)[1..] == a[1..] + b;
      CommasToDotsConcat(a[1..], b);
    }
  }

  /** The normalised text holds no space and no comma. */
  lemma {:induction false} NormalizeClean(s: string)
    ensures ' ' !in Normalize(s) && ',' !in Normalize(s)
  {
    if s != [] {
      NormalizeClean(s[1..]);
      assert s == [s[0]] + s[1..];
      NormalizeConcat([s[0]], s[1..]);
      NormalizeSingle(s[0]);
    }
  }

  /** Text with no space and no comma is left as it is. */
  lemma {:induction false} NormalizeFixed(s: string)
    requires ' ' !in s && ',' !in s
    ensures Normalize(s) == s
  {
    if s != [] {
      NormalizeFixed(s[1..]);
      assert s == [s[0]] + s[1..];
      NormalizeConcat([s[0]], s[1..]);
      NormalizeSingle(s[0]);
    }
  }

  /** Normalising twice is normalising once. */
  lemma NormalizeIdempotent(s: string)
    ensures Normalize(Normalize(s)) == Normalize(s)
  {
    NormalizeClean(s);
    NormalizeFixed(Normalize(s));
  }

  /** Normalisation shortens the text by exactly its number of spaces. */
  lemma {:induction false} NormalizeLength(s: string)
    ensures |Normalize(s)| == |s| - multiset(s)[' ']
  {
    if s != [] {
      NormalizeLength(s[1..]);
      assert s == [s[0]] + s[1..];
      NormalizeConcat([s[0]], s[1..]);
      NormalizeSingle(s[0]);
      assert multiset(s) == multiset([s[0]]) + multiset(s[1..]);
    }
  }

  // ---------------------------------------------------------------------
  // str.strip()
  // ---------------------------------------------------------------------

  /** The characters Python's `str.isspace` accepts (and `strip` removes). */
  predicate IsSpace(c: char)
  {
    || ('\U{9}' <= c <= '\U{d}')      // tab, line feed, vertical tab, form feed, carriage return
    || ('\U{1c}' <= c <= '\U{20}')    // file, group, record and unit separators; space
    || c == '\U{85}' || c == '\U{a0}' || c == '\U{1680}'
    || ('\U{2000}' <= c <= '\U{200a}')
    || c == '\U{2028}' || c == '\U{2029}' || c == '\U{202f}' || c == '\U{205f}' || c == '\U{3000}'
  }

  /** `s.lstrip()`. */
  function TrimStart(s: string): string
  {
    if s != [] && IsSpace(s[0]) then TrimStart(s[1..]) else s
  }

  /** `s.rstrip()`. */
  function TrimEnd(s: string): string
  {
    if s != [] && IsSpace(s[|s| - 1]) then TrimEnd(s[..|s| - 1]) else s
  }

  /** `s.strip()`. */
  function Strip(s: string): string
  {
    TrimEnd(TrimStart(s))
  }

  /** `TrimStart` drops a leading run of white space and nothing else. */
  lemma {:induction false} TrimStartShape(s: string)
    ensures |TrimStart(s)| <= |s| && TrimStart(s) == s[|s| - |TrimStart(s)|..]
    ensures forall j :: 0 <= j < |s| - |TrimStart(s)| ==> IsSpace(s[j])
    ensures TrimStart(s) != [] ==> !IsSpace(TrimStart(s)[0])
  {
    if s != [] && IsSpace(s[0]) {
      TrimStartShape(s[1..]);
      var t := TrimStart(s[1..]);
      assert s[1..][|s[1..]| - |t|..] == s[|s| - |t|..];
      forall j | 0 <= j < |s| - |t| ensures IsSpace(s[j]) {
        if j > 0 { assert s[j] == s[1..][j - 1]; }
      }
    }
  }

  /** `TrimEnd` drops a trailing run of white space and nothing else. */
  lemma {:induction false} TrimEndShape(s: string)
    ensures |TrimEnd(s)| <= |s| && TrimEnd(s) == s[..|TrimEnd(s)|]
    ensures forall j :: |TrimEnd(s)| <= j < |s| ==> IsSpace(s[j])
    ensures TrimEnd(s) != [] ==> !IsSpace(TrimEnd(s)[|TrimEnd(s)| - 1])
  {
    if s != [] && IsSpace(s[|s| - 1]) {
      var t := s[..|s| - 1];
      TrimEndShape(t);
      assert t[..|TrimEnd(t)|] == s[..|TrimEnd(t)|];
      forall j | |TrimEnd(t)| <= j < |s| ensures IsSpace(s[j]) {
        if j < |s| - 1 { assert s[j] == t[j]; }
      }
    }
  }

  /** `strip` keeps a contiguous middle part of the text, neither end of which
      is white space, and removes only white space around it. */
  lemma StripShape(s: string)
    ensures var i := |s| - |TrimStart(s)|;
            && 0 <= i && i + |Strip(s)| <= |s|
            && Strip(s) == s[i..i + |Strip(s)|]
            && (forall j :: 0 <= j < i ==> IsSpace(s[j]))
            && (forall j :: i + |Strip(s)| <= j < |s| ==> IsSpace(s[j]))
    ensures Strip(s) != [] ==> !IsSpace(Strip(s)[0]) && !IsSpace(Strip(s)[|Strip(s)| - 1])
  {
    var t := TrimStart(s);
    var i := |s| - |t|;
    TrimStartShape(s);
    TrimEndShape(t);
    var k := |Strip(s)|;
    assert Strip(s) == t[..k];
    assert t[..k] == s[i..i + k];
    forall j | i + k <= j < |s| ensures IsSpace(s[j]) {
      assert s[j] == t[j - i];
    }
    if Strip(s) != [] {
      assert Strip(s)[0] == t[0];
    }
  }

  /** A text strips to nothing exactly when it is all white space: this is the
      blank-name test of the last conversation step. */
  lemma StripEmptyIff(s: string)
    ensures Strip(s) == [] <==> forall j :: 0 <= j < |s| ==> IsSpace(s[j])
  {
    StripShape(s);
    if Strip(s) != [] {
      assert Strip(s)[0] == s[|s| - |TrimStart(s)|];
    }
  }
}
