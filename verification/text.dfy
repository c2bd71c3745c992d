/**
 * The .NET string operations the protocol layer relies on, written out:
 * char.IsWhiteSpace, string.IsNullOrWhiteSpace, Trim, Split with
 * RemoveEmptyEntries (with and without a count of 2) and ToUpperInvariant.
 */
module Text {
  import opened Wrappers

  /** char.IsWhiteSpace: the Unicode space separators, line and paragraph
      separators, U+0009..U+000D, U+0085 and U+00A0. */
  predicate IsWhiteSpace(c: char) {
    c == ' ' || ('\t' <= c <= '\r') || c == '\U{85}' || c == '\U{A0}' || c == '\U{1680}'
    || ('\U{2000}' <= c <= '\U{200A}') || c == '\U{2028}' || c == '\U{2029}'
    || c == '\U{202F}' || c == '\U{205F}' || c == '\U{3000}'
  }

  /** The white space NumberStyles.AllowLeadingWhite and AllowTrailingWhite admit. */
  predicate IsNumberWhite(c: char) {
    ('\t' <= c <= '\r') || c == ' '
  }

  /** The character classes that trimming strips. */
  datatype CharClass = AnyWhiteSpace | NumberWhiteSpace

  predicate InClass(c: char, cls: CharClass) {
    match cls
    case AnyWhiteSpace => IsWhiteSpace(c)
    case NumberWhiteSpace => IsNumberWhite(c)
  }

  /** string.IsNullOrWhiteSpace for a non-null string. */
  predicate IsBlank(s: string) {
    forall i | 0 <= i < |s| :: IsWhiteSpace(s[i])
  }

  /** The ASCII space and controls U+0009..U+000D are white space; digits,
      letters, '/' and the signs are not. */
  lemma WhiteSpaceClass(c: char)
    ensures c == ' ' || ('\t' <= c <= '\r') ==> IsWhiteSpace(c)
    ensures IsWhiteSpace(c) ==>
      !('0' <= c <= '9' || 'A' <= c <= 'Z' || 'a' <= c <= 'z' || c == '/' || c == '+' || c == '-')
  {
  }

  /** The empty string is blank; a longer one is blank exactly when its first
      character is white space and the rest is blank. */
  lemma BlankCons(c: char, s: string)
    ensures IsBlank([])
    ensures IsBlank([c] + s) <==> IsWhiteSpace(c) && IsBlank(s)
  {
    var cs := [c] + s;
    assert cs[0] == c && cs[1..] == s;
    if IsWhiteSpace(c) && IsBlank(s) {
      forall i | 0 <= i < |cs| ensures IsWhiteSpace(cs[i]) {
        if i > 0 { assert cs[i] == s[i - 1]; }
      }
    }
    if IsBlank(cs) {
      forall i | 0 <= i < |s| ensures IsWhiteSpace(s[i]) {
        assert s[i] == cs[i + 1];
      }
    }
  }

  /** The number of leading characters of s that satisfy p. */
  function LeadingCount(s: string, cls: CharClass): (n: nat)
    ensures n <= |s|
    ensures forall i | 0 <= i < n :: InClass(s[i], cls)
    ensures n < |s| ==> !InClass(s[n], cls)
  {
    if s != [] && InClass(s[0], cls) then 1 + LeadingCount(s[1..], cls) else 0
  }

  /** Drops the longest prefix whose characters are in cls. */
  function DropWhile(s: string, cls: CharClass): (r: string)
    ensures |r| <= |s| && r == s[|s| - |r|..]
    ensures forall i | 0 <= i < |s| - |r| :: InClass(s[i], cls)
    ensures r != [] ==> !InClass(r[0], cls)
  {
    s[LeadingCount(s, cls)..]
  }

  /** Drops the longest suffix whose characters are in cls. */
  function DropWhileEnd(s: string, cls: CharClass): (r: string)
    ensures |r| <= |s| && r == s[..|r|]
    ensures forall i | |r| <= i < |s| :: InClass(s[i], cls)
    ensures r != [] ==> !InClass(r[|r| - 1], cls)
  {
    if s != [] && InClass(s[|s| - 1], cls) then DropWhileEnd(s[..|s| - 1], cls) else s
  }

  /** string.Trim(): white space removed from both ends. */
  function Trim(s: string): (r: string)
    ensures r == [] <==> IsBlank(s)
    ensures r != [] ==> !IsWhiteSpace(r[0]) && !IsWhiteSpace(r[|r| - 1])
  {
    var front := DropWhile(s, AnyWhiteSpace);
    var r := DropWhileEnd(front, AnyWhiteSpace);
    assert r == [] ==> front == [];
    r
  }

  /** The trim of s is a contiguous part of s. */
  lemma TrimSlice(s: string) returns (k: nat)
    ensures k + |Trim(s)| <= |s| && Trim(s) == s[k..k + |Trim(s)|]
  {
    var front := DropWhile(s, AnyWhiteSpace);
    k := |s| - |front|;
    var r := DropWhileEnd(front, AnyWhiteSpace);
    assert Trim(s) == r;
    assert r == s[k..k + |r|];
  }

  /** A string whose first and last characters are not white space is its own trim. */
  lemma TrimIdentity(s: string)
    requires s != [] && !IsWhiteSpace(s[0]) && !IsWhiteSpace(s[|s| - 1])
    ensures Trim(s) == s
  {
    assert LeadingCount(s, AnyWhiteSpace) == 0;
    assert DropWhile(s, AnyWhiteSpace) == s;
    assert DropWhileEnd(s, AnyWhiteSpace) == s;
  }

  /** Text after a character outside cls (at k) leaves the leading count alone. */
  lemma {:induction false} LeadingCountAppend(a: string, c: string, cls: CharClass, k: nat)
    requires k < |a| && !InClass(a[k], cls)
    ensures LeadingCount(a + c, cls) == LeadingCount(a, cls)
  {
    assert (a + c)[0] == a[0];
    if InClass(a[0], cls) {
      assert a[1..][k - 1] == a[k];
      LeadingCountAppend(a[1..], c, cls, k - 1);
      assert (a + c)[1..] == a[1..] + c;
    }
  }

  /** Text after a character outside cls (at k) survives DropWhile untouched. */
  lemma DropWhileAppend(a: string, c: string, cls: CharClass, k: nat)
    requires k < |a| && !InClass(a[k], cls)
    ensures DropWhile(a + c, cls) == DropWhile(a, cls) + c
  {
    LeadingCountAppend(a, c, cls, k);
    var n := LeadingCount(a, cls);
    assert (a + c)[n..] == a[n..] + c;
  }

  /** Text before a character outside cls (at k) survives DropWhileEnd untouched. */
  lemma {:induction false} DropWhileEndAppend(c: string, b: string, cls: CharClass, k: nat)
    requires k < |b| && !InClass(b[k], cls)
    ensures DropWhileEnd(c + b, cls) == c + DropWhileEnd(b, cls)
  {
    var n := |b| - 1;
    DropLastAppend(c, b);
    if InClass(b[n], cls) {
      assert b[..n][k] == b[k];
      DropWhileEndAppend(c, b[..n], cls, k);
      assert DropWhileEnd(c + b, cls) == DropWhileEnd(c + b[..n], cls);
      assert DropWhileEnd(b, cls) == DropWhileEnd(b[..n], cls);
    } else {
      assert DropWhileEnd(c + b, cls) == c + b;
      assert DropWhileEnd(b, cls) == b;
    }
  }

  lemma DropLastAppend(c: string, b: string)
    requires b != []
    ensures (c + b)[|c + b| - 1] == b[|b| - 1]
    ensures (c + b)[..|c + b| - 1] == c + b[..|b| - 1]
  {
  }

  /** A prefix ending in a character outside cls survives DropWhileEnd untouched. */
  lemma {:induction false} DropWhileEndKeep(a: string, b: string, cls: CharClass)
    requires a != [] && !InClass(a[|a| - 1], cls)
    ensures DropWhileEnd(a + b, cls) == a + DropWhileEnd(b, cls)
  {
    if b != [] && InClass(b[|b| - 1], cls) {
      DropWhileEndKeep(a, b[..|b| - 1], cls);
      assert (a + b)[..|a + b| - 1] == a + b[..|b| - 1];
    } else if b == [] {
      assert a + b == a;
    }
  }

  /** DropWhile removes a prefix made of characters in cls. */
  lemma DropWhileSplit(s: string, cls: CharClass) returns (w: string)
    ensures s == w + DropWhile(s, cls)
    ensures forall i | 0 <= i < |w| :: InClass(w[i], cls)
  {
    var r := DropWhile(s, cls);
    w := s[..|s| - |r|];
    assert s == w + r;
  }

  /** DropWhileEnd removes a suffix made of characters in cls. */
  lemma DropWhileEndSplit(s: string, cls: CharClass) returns (w: string)
    ensures s == DropWhileEnd(s, cls) + w
    ensures forall i | 0 <= i < |w| :: InClass(w[i], cls)
  {
    var r := DropWhileEnd(s, cls);
    w := s[|r|..];
    assert s == r + w;
  }

  /** A run of characters in cls in front is dropped whole. */
  lemma DropWhileSkips(w: string, s: string, cls: CharClass)
    requires forall i | 0 <= i < |w| :: InClass(w[i], cls)
    ensures DropWhile(w + s, cls) == DropWhile(s, cls)
  {
    var n := LeadingCount(s, cls);
    LeadingCountSkips(w, s, cls);
    assert DropWhile(w + s, cls) == (w + s)[|w| + n..];
    DropPrefix(w, s, n);
  }

  lemma DropPrefix(w: string, s: string, n: nat)
    requires n <= |s|
    ensures (w + s)[|w| + n..] == s[n..]
  {
  }

  /** Characters in cls in front add to the leading count one for one. */
  lemma {:induction false} LeadingCountSkips(w: string, s: string, cls: CharClass)
    requires forall i | 0 <= i < |w| :: InClass(w[i], cls)
    ensures LeadingCount(w + s, cls) == |w| + LeadingCount(s, cls)
  {
    if w == [] {
      assert w + s == s;
    } else {
      var ws := w + s;
      assert ws[0] == w[0] && InClass(ws[0], cls);
      assert ws[1..] == w[1..] + s;
      LeadingCountSkips(w[1..], s, cls);
    }
  }

  /** A run of characters in cls at the back is dropped whole. */
  lemma {:induction false} DropWhileEndSkips(s: string, w: string, cls: CharClass)
    requires forall i | 0 <= i < |w| :: InClass(w[i], cls)
    ensures DropWhileEnd(s + w, cls) == DropWhileEnd(s, cls)
  {
    if w == [] {
      assert s + w == s;
    } else {
      var sw := s + w;
      assert sw[|sw| - 1] == w[|w| - 1];
      assert sw[..|sw| - 1] == s + w[..|w| - 1];
      DropWhileEndSkips(s, w[..|w| - 1], cls);
    }
  }

  /** Stripping cls from both ends of x padded with characters in cls gives x back,
      when x itself starts and ends outside cls. */
  lemma StripPadded(w1: string, x: string, w2: string, cls: CharClass)
    requires forall i | 0 <= i < |w1| :: InClass(w1[i], cls)
    requires forall i | 0 <= i < |w2| :: InClass(w2[i], cls)
    requires x != [] && !InClass(x[0], cls) && !InClass(x[|x| - 1], cls)
    ensures DropWhileEnd(DropWhile(w1 + x + w2, cls), cls) == x
  {
    Associative(w1, x, w2);
    DropWhileSkips(w1, x + w2, cls);
    DropWhileAppend(x, w2, cls, 0);
    assert LeadingCount(x, cls) == 0;
    assert DropWhile(x, cls) == x;
    DropWhileEndSkips(x, w2, cls);
    assert DropWhileEnd(x, cls) == x;
  }

  /** White space around a trimmed string is what Trim removes. */
  lemma TrimPadded(w1: string, x: string, w2: string)
    requires IsBlank(w1) && IsBlank(w2)
    requires x != [] && !IsWhiteSpace(x[0]) && !IsWhiteSpace(x[|x| - 1])
    ensures Trim(w1 + x + w2) == x
  {
    StripPadded(w1, x, w2, AnyWhiteSpace);
  }

  /** Every piece of s between separators, empty pieces included:
      string.Split(sep) with no options. */
  function Segments(s: string, sep: char): (r: seq<string>)
    ensures |r| >= 1
  {
    if s == [] then [[]]
    else
      var rest := Segments(s[1..], sep);
      if s[0] == sep then [[]] + rest else [[s[0]] + rest[0]] + rest[1..]
  }

  /** string.Join(sep, parts). */
  function Join(parts: seq<string>, sep: char): string
    requires |parts| >= 1
  {
    if |parts| == 1 then parts[0] else parts[0] + [sep] + Join(parts[1..], sep)
  }

  /** The first and last characters of a join are those of its first and last parts. */
  lemma {:induction false} JoinEnds(parts: seq<string>, sep: char)
    requires |parts| >= 1 && forall i | 0 <= i < |parts| :: parts[i] != []
    ensures Join(parts, sep) != []
    ensures Join(parts, sep)[0] == parts[0][0]
    ensures Join(parts, sep)[|Join(parts, sep)| - 1] == parts[|parts| - 1][|parts[|parts| - 1]| - 1]
  {
    if |parts| > 1 {
      JoinEnds(parts[1..], sep);
    }
  }

  /** The non-empty elements of parts, in order: the RemoveEmptyEntries filter. */
  function NonEmpty(parts: seq<string>): (r: seq<string>)
    ensures |r| <= |parts|
    ensures forall i | 0 <= i < |r| :: r[i] != [] && r[i] in parts
  {
    if parts == [] then []
    else if parts[0] == [] then NonEmpty(parts[1..])
    else [parts[0]] + NonEmpty(parts[1..])
  }

  /** Non-empty, space-free tokens: what a split on spaces with empty entries removed yields. */
  predicate TokenList(parts: seq<string>) {
    forall i | 0 <= i < |parts| :: parts[i] != [] && ' ' !in parts[i]
  }

  /** No segment contains the separator. */
  lemma {:induction false} SegmentsSeparatorFree(s: string, sep: char)
    ensures forall i | 0 <= i < |Segments(s, sep)| :: sep !in Segments(s, sep)[i]
  {
    if s != [] {
      SegmentsSeparatorFree(s[1..], sep);
      var rest := Segments(s[1..], sep);
      if s[0] != sep {
        var r := [[s[0]] + rest[0]] + rest[1..];
        forall i | 0 <= i < |r| ensures sep !in r[i] {
          if i > 0 {
            assert r[i] == rest[i];
          }
        }
      }
    }
  }

  /** string.Split(' ', StringSplitOptions.RemoveEmptyEntries). */
  function Tokens(s: string): (r: seq<string>)
    ensures TokenList(r)
  {
    SegmentsSeparatorFree(s, ' ');
    NonEmpty(Segments(s, ' '))
  }

  /** Joining the segments of s restores s. */
  lemma {:induction false} JoinSegments(s: string, sep: char)
    ensures Join(Segments(s, sep), sep) == s
  {
    if s != [] {
      JoinSegments(s[1..], sep);
      var rest := Segments(s[1..], sep);
      if s[0] != sep && |rest| > 1 {
        assert [[s[0]] + rest[0]] + rest[1..] == [[s[0]] + rest[0]] + rest[1..];
        assert Join(rest, sep) == rest[0] + [sep] + Join(rest[1..], sep);
      }
    }
  }

  /** Segments unfolded once, for a string given by its first character. */
  lemma SegmentsCons(c: char, t: string, sep: char)
    ensures Segments([c] + t, sep)
         == if c == sep then [[]] + Segments(t, sep)
            else [[c] + Segments(t, sep)[0]] + Segments(t, sep)[1..]
  {
    assert ([c] + t)[0] == c && ([c] + t)[1..] == t;
  }

  /** A separator splits the segments of the two sides apart. */
  lemma {:induction false} SegmentsAppend(a: string, b: string, sep: char)
    ensures Segments(a + [sep] + b, sep) == Segments(a, sep) + Segments(b, sep)
    decreases |a|
  {
    if a == [] {
      assert a + [sep] + b == [sep] + b;
      SegmentsCons(sep, b, sep);
      assert Segments(a, sep) == [[]];
    } else {
      var t := a[1..] + [sep] + b;
      assert a + [sep] + b == [a[0]] + t;
      assert [a[0]] + a[1..] == a;
      SegmentsAppend(a[1..], b, sep);
      SegmentsConsAppend(a[0], a[1..], t, Segments(b, sep), sep);
    }
  }

  /** The inductive step of SegmentsAppend, once the tail is known to split apart. */
  lemma SegmentsConsAppend(c: char, a: string, t: string, rb: seq<string>, sep: char)
    requires Segments(t, sep) == Segments(a, sep) + rb
    ensures Segments([c] + t, sep) == Segments([c] + a, sep) + rb
  {
    SegmentsCons(c, t, sep);
    SegmentsCons(c, a, sep);
    ConsShape(c, sep, Segments(a, sep), rb, Segments(t, sep), Segments([c] + t, sep), Segments([c] + a, sep));
  }

  /** The same step on the lists of pieces alone. */
  lemma ConsShape(c: char, sep: char, ra: seq<string>, rb: seq<string>, st: seq<string>, x: seq<string>, y: seq<string>)
    requires |ra| >= 1 && st == ra + rb
    requires x == if c == sep then [[]] + st else [[c] + st[0]] + st[1..]
    requires y == if c == sep then [[]] + ra else [[c] + ra[0]] + ra[1..]
    ensures x == y + rb
  {
    if c != sep {
      ConsHead([c], ra, rb);
    } else {
      assert [[]] + (ra + rb) == ([[]] + ra) + rb;
    }
  }

  /** Extending the first of a non-empty list of pieces commutes with appending more pieces. */
  lemma ConsHead(h: string, ra: seq<string>, rb: seq<string>)
    requires |ra| >= 1
    ensures [h + (ra + rb)[0]] + (ra + rb)[1..] == ([h + ra[0]] + ra[1..]) + rb
  {
    assert (ra + rb)[0] == ra[0];
    assert (ra + rb)[1..] == ra[1..] + rb;
  }

  /** A string without the separator is a single segment. */
  lemma {:induction false} SegmentsNoSeparator(s: string, sep: char)
    requires sep !in s
    ensures Segments(s, sep) == [s]
  {
    if s != [] {
      SegmentsNoSeparator(s[1..], sep);
      assert [s[0]] + s[1..] == s;
    }
  }

  /** Splitting a join of separator-free parts gives the parts back. */
  lemma {:induction false} SegmentsJoin(parts: seq<string>, sep: char)
    requires |parts| >= 1
    requires forall i | 0 <= i < |parts| :: sep !in parts[i]
    ensures Segments(Join(parts, sep), sep) == parts
  {
    if |parts| == 1 {
      SegmentsNoSeparator(parts[0], sep);
    } else {
      SegmentsJoin(parts[1..], sep);
      SegmentsAppend(parts[0], Join(parts[1..], sep), sep);
      SegmentsNoSeparator(parts[0], sep);
      assert [parts[0]] + parts[1..] == parts;
    }
  }

  /** NonEmpty unfolded once, for a list given by its first element. */
  lemma NonEmptyCons(x: string, p: seq<string>)
    ensures NonEmpty([x] + p) == (if x == [] then [] else [x]) + NonEmpty(p)
  {
    assert ([x] + p)[0] == x && ([x] + p)[1..] == p;
  }

  lemma {:induction false} NonEmptyAppend(p: seq<string>, q: seq<string>)
    ensures NonEmpty(p + q) == NonEmpty(p) + NonEmpty(q)
  {
    if p != [] {
      assert p + q == [p[0]] + (p[1..] + q);
      assert p == [p[0]] + p[1..];
      NonEmptyAppend(p[1..], q);
      NonEmptyCons(p[0], p[1..] + q);
      NonEmptyCons(p[0], p[1..]);
      var h: seq<string> := if p[0] == [] then [] else [p[0]];
      Associative(h, NonEmpty(p[1..]), NonEmpty(q));
    } else {
      assert p + q == q;
    }
  }

  /** Concatenation is associative. */
  lemma Associative<T>(x: seq<T>, y: seq<T>, z: seq<T>)
    ensures x + (y + z) == (x + y) + z
  {
  }

  lemma {:induction false} NonEmptyIdentity(p: seq<string>)
    requires forall i | 0 <= i < |p| :: p[i] != []
    ensures NonEmpty(p) == p
  {
    if p != [] {
      NonEmptyIdentity(p[1..]);
      assert [p[0]] + p[1..] == p;
    }
  }

  /** A run of spaces separates tokens exactly as one space does. */
  lemma TokensSpaceRun(a: string, b: string)
    ensures Tokens(a + " " + b) == Tokens(a + "  " + b)
  {
    SegmentsAppend(a, b, ' ');
    assert a + "  " + b == a + [' '] + ([' '] + b);
    SegmentsAppend(a, [' '] + b, ' ');
    assert [' '] + b == [] + [' '] + b;
    SegmentsAppend([], b, ' ');
    assert Segments([' '] + b, ' ') == [[]] + Segments(b, ' ');
    NonEmptyAppend(Segments(a, ' '), Segments(b, ' '));
    NonEmptyAppend(Segments(a, ' '), [[]] + Segments(b, ' '));
    NonEmptyAppend([[]], Segments(b, ' '));
  }

  /** Tokens of a single-space join of space-free, non-empty words are those words. */
  lemma TokensJoin(words: seq<string>)
    requires |words| >= 1
    requires TokenList(words)
    ensures Tokens(Join(words, ' ')) == words
  {
    SegmentsJoin(words, ' ');
    NonEmptyIdentity(words);
  }

  /** A string that starts with a non-space character starts with a token. */
  lemma TokensHead(s: string)
    requires s != [] && s[0] != ' '
    ensures |Tokens(s)| >= 1 && Tokens(s)[0][0] == s[0]
  {
    var segs := Segments(s, ' ');
    assert segs[0][0] == s[0];
    assert NonEmpty(segs) == [segs[0]] + NonEmpty(segs[1..]);
  }

  /** A leading word followed by nothing or by a space is the first token. */
  lemma TokensCons(word: string, rest: string)
    requires word != [] && ' ' !in word
    requires rest == [] || rest[0] == ' '
    ensures Tokens(word + rest) == [word] + Tokens(rest)
  {
    SegmentsNoSeparator(word, ' ');
    if rest == [] {
      assert word + rest == word;
      assert Tokens(rest) == [];
    } else {
      assert word + rest == word + [' '] + rest[1..];
      SegmentsAppend(word, rest[1..], ' ');
      assert rest == [] + [' '] + rest[1..];
      SegmentsAppend([], rest[1..], ' ');
      NonEmptyAppend([word], Segments(rest[1..], ' '));
      NonEmptyAppend([[]], Segments(rest[1..], ' '));
    }
  }

  /** A string without white space has no space in it. */
  lemma SpaceFree(s: string)
    requires forall i | 0 <= i < |s| :: !IsWhiteSpace(s[i])
    ensures ' ' !in s
  {
  }

  /** Drops the leading copies of c. */
  function DropLeading(s: string, c: char): (r: string)
    ensures |r| <= |s| && r == s[|s| - |r|..]
    ensures forall i | 0 <= i < |s| - |r| :: s[i] == c
    ensures r != [] ==> r[0] != c
  {
    if s != [] && s[0] == c then DropLeading(s[1..], c) else s
  }

  /** Splits s at its first sep. */
  function SplitFirst(s: string, sep: char): (r: Option<(string, string)>)
    ensures r.None? <==> sep !in s
    ensures r.Some? ==> sep !in r.value.0 && s == r.value.0 + [sep] + r.value.1
  {
    if s == [] then None
    else if s[0] == sep then Some(([], s[1..]))
    else match SplitFirst(s[1..], sep)
      case None => None
      case Some((a, b)) => Some(([s[0]] + a, b))
  }

  /** string.Split(sep, 2, StringSplitOptions.RemoveEmptyEntries) as .NET Core does it:
      empty entries before the first non-empty one are skipped, and so are the empty
      entries right after it; the second entry is the whole rest, later separators
      included; an empty rest is dropped. */
  function SplitPair(s: string, sep: char): (r: seq<string>)
    ensures |r| <= 2
    ensures forall i | 0 <= i < |r| :: r[i] != []
    ensures |r| >= 1 ==> sep !in r[0]
    ensures |r| == 2 ==> r[1][0] != sep
  {
    var t := DropLeading(s, sep);
    match SplitFirst(t, sep)
    case None => if t == [] then [] else [t]
    case Some((a, b)) =>
      assert t[|a|] == sep;
      var rest := DropLeading(b, sep);
      if rest == [] then [a] else [a, rest]
  }

  /** A character missing from s is missing from both entries SplitPair gives. */
  lemma SplitPairAvoids(s: string, sep: char, x: char)
    requires x !in s && |SplitPair(s, sep)| == 2
    ensures x !in SplitPair(s, sep)[0] && x !in SplitPair(s, sep)[1]
  {
    SplitPairShape(s, sep);
    var lead: nat, gap: nat :| s == Repeat(sep, lead) + (SplitPair(s, sep)[0] + [sep] + (Repeat(sep, gap) + SplitPair(s, sep)[1]));
    PiecesAvoid(SplitPair(s, sep)[0], SplitPair(s, sep)[1], Repeat(sep, lead), [sep], Repeat(sep, gap), s, x);
  }

  /** Whatever s lacks, its pieces lack. */
  lemma PiecesAvoid(a: string, b: string, p: string, q: string, r: string, s: string, x: char)
    requires s == p + (a + q + (r + b)) && x !in s
    ensures x !in a && x !in b
  {
  }

  /** n copies of c. */
  function Repeat(c: char, n: nat): (r: string)
    ensures |r| == n && forall i | 0 <= i < n :: r[i] == c
  {
    if n == 0 then [] else [c] + Repeat(c, n - 1)
  }

  /** Dropping a run of c from the front of that run followed by s leaves s. */
  lemma {:induction false} DropRepeat(c: char, n: nat, s: string)
    requires s == [] || s[0] != c
    ensures DropLeading(Repeat(c, n) + s, c) == s
  {
    if n > 0 {
      DropRepeat(c, n - 1, s);
      assert (Repeat(c, n) + s)[1..] == Repeat(c, n - 1) + s;
    } else {
      assert Repeat(c, n) + s == s;
    }
  }

  /** The two entries of SplitPair: any number of separators, a separator-free
      first entry, at least one separator, and a rest that does not start with one. */
  lemma SplitPairOf(sep: char, lead: nat, a: string, gap: nat, b: string)
    requires a != [] && sep !in a
    requires b != [] && b[0] != sep
    ensures SplitPair(Repeat(sep, lead) + (a + [sep] + (Repeat(sep, gap) + b)), sep) == [a, b]
  {
    var after := Repeat(sep, gap) + b;
    var tail := a + [sep] + after;
    assert tail[0] == a[0];
    DropRepeat(sep, lead, tail);
    SplitFirstUnique(tail, sep, a, after);
    DropRepeat(sep, gap, b);
  }

  /** The first separator determines SplitFirst. */
  lemma {:induction false} SplitFirstUnique(s: string, sep: char, a: string, b: string)
    requires sep !in a && s == a + [sep] + b
    ensures SplitFirst(s, sep) == Some((a, b))
  {
    if a != [] {
      assert s[1..] == a[1..] + [sep] + b;
      SplitFirstUnique(s[1..], sep, a[1..], b);
      assert [s[0]] + a[1..] == a;
    } else {
      assert s[1..] == b;
    }
  }

  /** Two entries come only from that shape. */
  lemma SplitPairShape(s: string, sep: char)
    requires |SplitPair(s, sep)| == 2
    ensures exists lead: nat, gap: nat ::
      s == Repeat(sep, lead) + (SplitPair(s, sep)[0] + [sep] + (Repeat(sep, gap) + SplitPair(s, sep)[1]))
  {
    var t := DropLeading(s, sep);
    var lead := DropLeadingShape(s, sep);
    var split := SplitFirst(t, sep);
    var a, b := split.value.0, split.value.1;
    var rest := DropLeading(b, sep);
    var gap := DropLeadingShape(b, sep);
    assert SplitPair(s, sep) == [a, rest];
    assert s == Repeat(sep, lead) + (a + [sep] + (Repeat(sep, gap) + rest));
  }

  /** What DropLeading removed is a run of c. */
  lemma DropLeadingShape(s: string, c: char) returns (n: nat)
    ensures n == |s| - |DropLeading(s, c)|
    ensures s == Repeat(c, n) + DropLeading(s, c)
  {
    n := |s| - |DropLeading(s, c)|;
    assert s[..n] == Repeat(c, n);
    assert s == s[..n] + s[n..];
  }

  /** ToUpperInvariant, on the ASCII letters. */
  function UpperChar(c: char): (u: char)
    ensures !('a' <= u <= 'z')
  {
    if 'a' <= c <= 'z' then (c as int - 32) as char else c
  }

  function ToUpper(s: string): (r: string)
    ensures |r| == |s| && forall i | 0 <= i < |s| :: r[i] == UpperChar(s[i])
  {
    if s == [] then [] else [UpperChar(s[0])] + ToUpper(s[1..])
  }

  /** Upper-casing twice is upper-casing once. */
  lemma ToUpperIdempotent(s: string)
    ensures ToUpper(ToUpper(s)) == ToUpper(s)
  {
  }
}
