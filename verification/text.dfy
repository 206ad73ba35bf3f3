/** String helpers with the exact semantics of the JavaScript string operations
    the application relies on: ASCII case mapping, `includes`, `split(" ")` /
    `join(" ")`, the `\s` whitespace class, and decimal rendering of integers. */
module Text {

  predicate IsAsciiUpper(c: char) { 'A' <= c <= 'Z' }

  predicate IsAsciiLower(c: char) { 'a' <= c <= 'z' }

  /** `toLowerCase` on one character (ASCII letters only). */
  function LowerChar(c: char): (d: char)
    ensures !IsAsciiUpper(d)
    ensures IsAsciiUpper(c) ==> d as int == c as int + 32
    ensures !IsAsciiUpper(c) ==> d == c
  {
    if IsAsciiUpper(c) then (c as int + 32) as char else c
  }

  /** `toUpperCase` on one character (ASCII letters only). */
  function UpperChar(c: char): (d: char)
    ensures !IsAsciiLower(d)
    ensures IsAsciiLower(c) ==> d as int == c as int - 32
    ensures !IsAsciiLower(c) ==> d == c
  {
    if IsAsciiLower(c) then (c as int - 32) as char else c
  }

  predicate HasNoUpper(s: string) {
    forall i :: 0 <= i < |s| ==> !IsAsciiUpper(s[i])
  }

  /** `toLowerCase`: no capital letter is left, a text that has none is
      returned unchanged, and only letters change. */
  function Lower(s: string): (r: string)
    ensures |r| == |s|
    ensures HasNoUpper(r)
    ensures HasNoUpper(s) ==> r == s
    ensures forall i :: 0 <= i < |s| && !IsAsciiUpper(s[i]) ==> r[i] == s[i]
    ensures forall i :: 0 <= i < |s| ==> r[i] == LowerChar(s[i])
  {
    var r := seq(|s|, i requires 0 <= i < |s| => LowerChar(s[i]));
    assert HasNoUpper(s) ==> r == s by {
      if HasNoUpper(s) {
        assert forall i :: 0 <= i < |s| ==> r[i] == s[i];
      }
    }
    r
  }

  /** Lowercasing is idempotent, and a lowercased string has no upper-case letter. */
  lemma LowerIdempotent(s: string)
    ensures Lower(Lower(s)) == Lower(s)
    ensures HasNoUpper(Lower(s))
  {
  }

  predicate IsPrefix(p: string, s: string) {
    |p| <= |s| && s[..|p|] == p
  }

  /** `hay.includes(needle)`: scans every start position from the left. */
  predicate Contains(hay: string, needle: string)
    decreases |hay|
  {
    IsPrefix(needle, hay) || (|hay| > 0 && Contains(hay[1..], needle))
  }

  /** `needle` occurs in `hay` starting at offset `i`. */
  predicate OccursAt(hay: string, needle: string, i: int) {
    0 <= i && i + |needle| <= |hay| && hay[i..i + |needle|] == needle
  }

  /** `Contains` holds exactly when `needle` occurs at some offset of `hay`. */
  lemma {:induction false} ContainsIff(hay: string, needle: string)
    ensures Contains(hay, needle) <==> exists i :: OccursAt(hay, needle, i)
    decreases |hay|
  {
    if IsPrefix(needle, hay) {
      assert OccursAt(hay, needle, 0);
    } else if |hay| == 0 {
    } else {
      ContainsIff(hay[1..], needle);
      if Contains(hay[1..], needle) {
        var i :| OccursAt(hay[1..], needle, i);
        assert hay[i + 1..i + 1 + |needle|] == hay[1..][i..i + |needle|];
        assert OccursAt(hay, needle, i + 1);
      }
      if exists i :: OccursAt(hay, needle, i) {
        var i :| OccursAt(hay, needle, i);
        assert i != 0;
        assert hay[1..][i - 1..i - 1 + |needle|] == hay[i..i + |needle|];
        assert OccursAt(hay[1..], needle, i - 1);
      }
    }
  }

  /** The `\s` class of JavaScript regular expressions (and the set `trim` removes). */
  /** A character outside the Basic Multilingual Plane, which UTF-16 stores
      as a surrogate pair. */
  predicate IsAstral(c: char) { c as int >= 0x1_0000 }

  /** JavaScript's `s.length`: the number of UTF-16 code units, one per
      character of the Basic Multilingual Plane and two for any other. */
  function Utf16Length(s: string): (n: nat)
    ensures |s| <= n <= 2 * |s|
    ensures n == |s| <==> forall i :: 0 <= i < |s| ==> !IsAstral(s[i])
    decreases |s|
  {
    if |s| == 0 then 0
    else
      var n := (if IsAstral(s[0]) then 2 else 1) + Utf16Length(s[1..]);
      assert forall i :: 1 <= i < |s| ==> s[i] == s[1..][i - 1];
      n
  }

  /** Code-unit lengths add up over concatenation. */
  lemma {:induction false} Utf16LengthAppend(a: string, b: string)
    ensures Utf16Length(a + b) == Utf16Length(a) + Utf16Length(b)
    decreases |a|
  {
    if |a| == 0 {
      assert a + b == b;
    } else {
      assert (a + b)[0] == a[0];
      assert (a + b)[1..] == a[1..] + b;
      Utf16LengthAppend(a[1..], b);
    }
  }

  predicate IsSpace(c: char) {
    c == ' ' || c == '\t' || c == '\n' || c == '\r' || c == '\U{000B}' || c == '\U{000C}'
    || c == '\U{00A0}' || c == '\U{1680}' || ('\U{2000}' <= c <= '\U{200A}')
    || c == '\U{2028}' || c == '\U{2029}' || c == '\U{202F}' || c == '\U{205F}'
    || c == '\U{3000}' || c == '\U{FEFF}'
  }

  /** The characters `.` does not match in a JavaScript regular expression. */
  predicate IsLineTerminator(c: char) {
    c == '\n' || c == '\r' || c == '\U{2028}' || c == '\U{2029}'
  }

  /** Length of the run of non-space characters at the start of `s`. */
  function WordLen(s: string): (n: nat)
    ensures n <= |s|
    ensures forall i :: 0 <= i < n ==> !IsSpace(s[i])
    ensures n < |s| ==> IsSpace(s[n])
  {
    if |s| == 0 || IsSpace(s[0]) then 0 else 1 + WordLen(s[1..])
  }

  /** The maximal runs of non-space characters, left to right. */
  function Tokens(s: string): (ts: seq<string>)
    ensures forall k :: 0 <= k < |ts| ==> |ts[k]| > 0
    decreases |s|
  {
    if |s| == 0 then []
    else if IsSpace(s[0]) then Tokens(s[1..])
    else
      var n := WordLen(s);
      [s[..n]] + Tokens(s[n..])
  }

  lemma {:induction false} WordLenStopsAtSpace(a: string, c: char, b: string)
    requires IsSpace(c)
    ensures WordLen(a + [c] + b) == WordLen(a)
    decreases |a|
  {
    if |a| == 0 {
      assert (a + [c] + b)[0] == c;
    } else if IsSpace(a[0]) {
      assert (a + [c] + b)[0] == a[0];
    } else {
      assert (a + [c] + b)[1..] == a[1..] + [c] + b;
      WordLenStopsAtSpace(a[1..], c, b);
    }
  }

  /** A whitespace character separates tokens: splitting distributes over it. */
  lemma {:induction false} TokensSplitAtSpace(a: string, c: char, b: string)
    requires IsSpace(c)
    ensures Tokens(a + [c] + b) == Tokens(a) + Tokens(b)
    decreases |a|
  {
    var s := a + [c] + b;
    if |a| == 0 {
      assert s == [c] + b;
      assert s[1..] == b;
    } else if IsSpace(a[0]) {
      assert s[1..] == a[1..] + [c] + b;
      TokensSplitAtSpace(a[1..], c, b);
    } else {
      WordLenStopsAtSpace(a, c, b);
      var n := WordLen(a);
      assert s[..n] == a[..n];
      assert s[n..] == a[n..] + [c] + b;
      TokensSplitAtSpace(a[n..], c, b);
    }
  }

  /** A leading whitespace character never produces a token. */
  lemma LeadingSpaceIgnored(c: char, b: string)
    requires IsSpace(c)
    ensures Tokens([c] + b) == Tokens(b)
  {
    assert ([c] + b)[1..] == b;
  }

  predicate IsDigit(c: char) { '0' <= c <= '9' }

  function DigitValue(c: char): (d: nat)
    requires IsDigit(c)
    ensures d <= 9
  {
    c as int - '0' as int
  }

  function DigitChar(d: nat): (c: char)
    requires d <= 9
    ensures IsDigit(c) && DigitValue(c) == d
  {
    ('0' as int + d) as char
  }

  predicate AllDigits(s: string) {
    forall i :: 0 <= i < |s| ==> IsDigit(s[i])
  }

  /** `parseInt` of a string of decimal digits. */
  function ParseDigits(s: string): nat
    requires AllDigits(s)
    decreases |s|
  {
    if |s| == 0 then 0
    else 10 * ParseDigits(s[..|s| - 1]) + DigitValue(s[|s| - 1])
  }

  /** `n.toString()` for a non-negative integer. */
  function NatToString(n: nat): (s: string)
    ensures |s| > 0 && AllDigits(s)
    decreases n
  {
    if n < 10 then [DigitChar(n)] else NatToString(n / 10) + [DigitChar(n % 10)]
  }

  /** Rendering a number in decimal and reading it back gives the number. */
  lemma {:induction false} NatToStringRoundTrip(n: nat)
    ensures ParseDigits(NatToString(n)) == n
    decreases n
  {
    var s := NatToString(n);
    if n < 10 {
      assert s[..|s| - 1] == [];
    } else {
      NatToStringRoundTrip(n / 10);
      assert s[..|s| - 1] == NatToString(n / 10);
    }
  }

  /** `n.toString()` for any integer. */
  function IntToString(n: int): (s: string)
    ensures |s| > 0
  {
    if n < 0 then "-" + NatToString(-n) else NatToString(n)
  }

  /** `s.split(sep)`: every separator ends a piece, so there is one more piece
      than there are separators, and pieces may be empty. */
  function Split(s: string, sep: char): (ws: seq<string>)
    ensures |ws| >= 1
    ensures forall k :: 0 <= k < |ws| ==> sep !in ws[k]
    decreases |s|
  {
    if |s| == 0 then [""]
    else
      var rest := Split(s[1..], sep);
      if s[0] == sep then [""] + rest
      else [[s[0]] + rest[0]] + rest[1..]
  }

  /** `ws.join(sep)`. */
  function Join(ws: seq<string>, sep: char): string
    requires |ws| >= 1
    decreases |ws|
  {
    if |ws| == 1 then ws[0] else ws[0] + [sep] + Join(ws[1..], sep)
  }

  /** Joining the pieces of a split restores the original string. */
  lemma {:induction false} SplitJoinRoundTrip(s: string, sep: char)
    ensures Join(Split(s, sep), sep) == s
    decreases |s|
  {
    if |s| > 0 {
      var rest := Split(s[1..], sep);
      SplitJoinRoundTrip(s[1..], sep);
      if s[0] == sep {
        assert Join(Split(s, sep), sep) == "" + [sep] + Join(rest, sep);
      } else {
        var ws := Split(s, sep);
        if |rest| == 1 {
          assert Join(ws, sep) == [s[0]] + rest[0];
        } else {
          assert ws[1..] == rest[1..];
          assert Join(ws, sep) == [s[0]] + rest[0] + [sep] + Join(rest[1..], sep);
        }
      }
    }
  }

  lemma {:induction false} JoinAppend(a: seq<string>, b: seq<string>, sep: char)
    requires |a| >= 1 && |b| >= 1
    ensures Join(a + b, sep) == Join(a, sep) + [sep] + Join(b, sep)
    decreases |a|
  {
    if |a| > 1 {
      assert (a + b)[1..] == a[1..] + b;
      JoinAppend(a[1..], b, sep);
    }
  }

  /** A character that is neither the separator nor in any piece is not in the join. */
  lemma {:induction false} CharNotInJoin(ws: seq<string>, sep: char, c: char)
    requires |ws| >= 1 && c != sep
    requires forall k :: 0 <= k < |ws| ==> c !in ws[k]
    ensures c !in Join(ws, sep)
    decreases |ws|
  {
    if |ws| > 1 {
      CharNotInJoin(ws[1..], sep, c);
    }
  }

  /** A non-empty run without whitespace is a single token. */
  lemma TokensOfWord(w: string)
    requires |w| > 0 && forall k :: 0 <= k < |w| ==> !IsSpace(w[k])
    ensures Tokens(w) == [w]
  {
    assert WordLen(w) == |w|;
    assert w[..|w|] == w && w[|w|..] == [];
  }

  /** Splitting on whitespace undoes a space-join of non-empty, space-free words. */
  lemma {:induction false} TokensOfJoin(ws: seq<string>)
    requires |ws| >= 1
    requires forall k :: 0 <= k < |ws| ==> |ws[k]| > 0
    requires forall k, i :: 0 <= k < |ws| && 0 <= i < |ws[k]| ==> !IsSpace(ws[k][i])
    ensures Tokens(Join(ws, ' ')) == ws
    decreases |ws|
  {
    TokensOfWord(ws[0]);
    if |ws| > 1 {
      TokensOfJoin(ws[1..]);
      TokensSplitAtSpace(ws[0], ' ', Join(ws[1..], ' '));
      assert ws == [ws[0]] + ws[1..];
    }
  }


  function Capitalize(w: string): string {
    if |w| == 0 then "" else [UpperChar(w[0])] + w[1..]
  }

  function CapitalizeAll(ws: seq<string>): (r: seq<string>)
    ensures |r| == |ws|
    ensures forall k :: 0 <= k < |ws| ==> r[k] == Capitalize(ws[k])
  {
    seq(|ws|, k requires 0 <= k < |ws| => Capitalize(ws[k]))
  }

  /** `name.split(" ").map(capitalize).join(" ")`: the display form of a
      category name used by the search bar, the category page and the breadcrumb. */
  function FormatWords(s: string): string {
    Join(CapitalizeAll(Split(s, ' ')), ' ')
  }

  /** The same pieces with every piece but the first capitalized. */
  function FormatTail(s: string): string {
    var ws := Split(s, ' ');
    Join([ws[0]] + CapitalizeAll(ws[1..]), ' ')
  }

  /** Upper-cases the first character, if there is one. */
  function CapFirst(t: string): string {
    if |t| == 0 then t else [UpperChar(t[0])] + t[1..]
  }

  /** Character position `i` is the start of a word when it is the first
      position or follows a space. */
  predicate WordStart(s: string, i: int)
    requires 0 <= i < |s|
  {
    i == 0 || s[i - 1] == ' '
  }

  lemma JoinHead(w: string, rest: seq<string>, sep: char)
    ensures Join([w] + rest, sep) == (if |rest| == 0 then w else w + [sep] + Join(rest, sep))
  {
    if |rest| > 0 {
      assert ([w] + rest)[1..] == rest;
    }
  }

  lemma JoinCapitalizedHead(w: string, rest: seq<string>)
    ensures Join([Capitalize(w)] + rest, ' ') == CapFirst(Join([w] + rest, ' '))
  {
    JoinHead(Capitalize(w), rest, ' ');
    JoinHead(w, rest, ' ');
  }

  lemma FormatIsCapFirstOfTail(s: string)
    ensures FormatWords(s) == CapFirst(FormatTail(s))
  {
    var ws := Split(s, ' ');
    var rest := CapitalizeAll(ws[1..]);
    assert CapitalizeAll(ws) == [Capitalize(ws[0])] + rest;
    JoinCapitalizedHead(ws[0], rest);
  }

  /** One step of the recursion of `FormatTail` over the first character. */
  lemma FormatTailStep(s: string)
    requires |s| > 0
    ensures FormatTail(s) == if s[0] == ' ' then [' '] + FormatWords(s[1..]) else [s[0]] + FormatTail(s[1..])
  {
    var rest := Split(s[1..], ' ');
    var ws := Split(s, ' ');
    if s[0] == ' ' {
      assert ws == [""] + rest;
      assert ws[1..] == rest;
      JoinHead("", CapitalizeAll(rest), ' ');
    } else {
      assert ws == [[s[0]] + rest[0]] + rest[1..];
      assert ws[1..] == rest[1..];
      JoinHead([s[0]] + rest[0], CapitalizeAll(rest[1..]), ' ');
      JoinHead(rest[0], CapitalizeAll(rest[1..]), ' ');
    }
  }

  /** Position-wise meaning of `FormatTail`: upper-case exactly the characters
      that follow a space. */
  lemma {:induction false} FormatTailPointwise(s: string)
    ensures |FormatTail(s)| == |s|
    ensures forall i :: 0 <= i < |s| ==>
              FormatTail(s)[i] == (if i > 0 && s[i - 1] == ' ' then UpperChar(s[i]) else s[i])
    decreases |s|
  {
    if |s| == 0 {
      assert Split(s, ' ') == [""];
    } else {
      FormatTailStep(s);
      FormatTailPointwise(s[1..]);
      if s[0] == ' ' {
        FormatIsCapFirstOfTail(s[1..]);
      }
    }
  }

  /** `FormatWords` upper-cases exactly the first character of every
      space-separated word and changes nothing else. */
  lemma FormatWordsPointwise(s: string)
    ensures |FormatWords(s)| == |s|
    ensures forall i :: 0 <= i < |s| ==>
              FormatWords(s)[i] == (if WordStart(s, i) then UpperChar(s[i]) else s[i])
  {
    FormatIsCapFirstOfTail(s);
    FormatTailPointwise(s);
  }

  /** Formatting keeps every space where it was, so the word structure
      (and the number of words) is preserved. */
  lemma FormatWordsKeepsSpaces(s: string)
    ensures |FormatWords(s)| == |s|
    ensures forall i :: 0 <= i < |s| ==> (FormatWords(s)[i] == ' ' <==> s[i] == ' ')
    ensures |Split(FormatWords(s), ' ')| == |Split(s, ' ')|
  {
    FormatWordsPointwise(s);
    SplitCountsSpaces(s, ' ');
    SplitCountsSpaces(FormatWords(s), ' ');
    SameSpacesSameCount(s, FormatWords(s), ' ');
  }

  function CountChar(s: string, c: char): nat
    decreases |s|
  {
    if |s| == 0 then 0 else (if s[0] == c then 1 else 0) + CountChar(s[1..], c)
  }

  lemma {:induction false} SplitCountsSpaces(s: string, sep: char)
    ensures |Split(s, sep)| == CountChar(s, sep) + 1
    decreases |s|
  {
    if |s| > 0 {
      SplitCountsSpaces(s[1..], sep);
    }
  }

  lemma {:induction false} SameSpacesSameCount(a: string, b: string, c: char)
    requires |a| == |b|
    requires forall i :: 0 <= i < |a| ==> (a[i] == c <==> b[i] == c)
    ensures CountChar(a, c) == CountChar(b, c)
    decreases |a|
  {
    if |a| > 0 {
      SameSpacesSameCount(a[1..], b[1..], c);
    }
  }

  /** Formatting a formatted name changes nothing. */
  lemma FormatWordsIdempotent(s: string)
    ensures FormatWords(FormatWords(s)) == FormatWords(s)
  {
    var f := FormatWords(s);
    FormatWordsPointwise(s);
    FormatWordsPointwise(f);
    assert forall i :: 0 <= i < |f| ==> (WordStart(f, i) <==> WordStart(s, i));
  }
}
