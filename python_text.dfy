/** The parts of Python's `str` and `int` built-ins that the bot's parsing
    relies on: `str.isspace`, `str.split()`, `str.split(sep)`, `sep.join`,
    the whitespace `int(text)` skips, `int(text)` and `str(number)`. */
module PythonText {

  datatype Option<T> = None | Some(value: T)

  /** The characters for which Python's `str.isspace()` holds, the set
      `str.split()` splits on. */
  predicate IsSpace(c: char) {
    || c == ' '
    || ('\t' <= c <= '\r')
    || ('\U{1c}' <= c <= '\U{1f}')
    || c == '\U{85}' || c == '\U{a0}' || c == '\U{1680}'
    || ('\U{2000}' <= c <= '\U{200a}')
    || c == '\U{2028}' || c == '\U{2029}' || c == '\U{202f}' || c == '\U{205f}' || c == '\U{3000}'
  }

  /** The whitespace `int()` ignores around a number: other non-ASCII
      whitespace is read as a space, but the ASCII separator controls
      U+001C..U+001F, which `str.isspace()` accepts, are not skipped. */
  predicate IsIntSpace(c: char) {
    IsSpace(c) && !('\U{1c}' <= c <= '\U{1f}')
  }

  predicate IsDigit(c: char) {
    '0' <= c <= '9'
  }

  function DigitValue(c: char): (d: nat)
    requires IsDigit(c)
    ensures d < 10
  {
    (c as int) - ('0' as int)
  }

  function DigitChar(d: nat): (c: char)
    requires d < 10
    ensures IsDigit(c) && DigitValue(c) == d
  {
    ('0' as int + d) as char
  }

  // ---------------------------------------------------------------------
  // sep.join(parts)
  // ---------------------------------------------------------------------

  /** Python's `sep.join(parts)`: the parts in order, one `sep` between each
      neighbouring pair, nothing before the first or after the last. */
  function Join(parts: seq<string>, sep: string): string
    decreases |parts|
  {
    if |parts| == 0 then ""
    else if |parts| == 1 then parts[0]
    else parts[0] + sep + Join(parts[1..], sep)
  }

  /** Joining grows from the right one separator and one part at a time, so the
      parts appear in their given order. */
  lemma {:induction false} JoinAppend(parts: seq<string>, last: string, sep: string)
    requires parts != []
    ensures Join(parts + [last], sep) == Join(parts, sep) + sep + last
    decreases |parts|
  {
    if |parts| == 1 {
      assert parts + [last] == [parts[0], last];
      assert (parts + [last])[1..] == [last];
    } else {
      assert (parts + [last])[1..] == parts[1..] + [last];
      JoinAppend(parts[1..], last, sep);
    }
  }

  // ---------------------------------------------------------------------
  // str.split() — no separator
  // ---------------------------------------------------------------------

  /** A piece that `str.split()` can return: non-empty, no whitespace. */
  predicate IsToken(w: string) {
    w != [] && forall i :: 0 <= i < |w| ==> !IsSpace(w[i])
  }

  /** The length of the run of non-space characters that starts `s`. */
  function TokenLength(s: string): (n: nat)
    requires s != [] && !IsSpace(s[0])
    ensures 1 <= n <= |s|
    ensures IsToken(s[..n])
    ensures n < |s| ==> IsSpace(s[n])
    decreases |s|
  {
    if |s| == 1 || IsSpace(s[1]) then 1 else 1 + TokenLength(s[1..])
  }

  /** Python's `str.split()`: the maximal runs of non-space characters, in
      order; leading, trailing and repeated whitespace produce no pieces. */
  function Split(s: string): (tokens: seq<string>)
    ensures forall i :: 0 <= i < |tokens| ==> IsToken(tokens[i])
    decreases |s|
  {
    if s == [] then []
    else if IsSpace(s[0]) then Split(s[1..])
    else
      var n := TokenLength(s);
      [s[..n]] + Split(s[n..])
  }

  lemma {:induction false} TokenLengthOfToken(w: string, rest: string)
    requires IsToken(w)
    requires rest == [] || IsSpace(rest[0])
    ensures TokenLength(w + rest) == |w|
    decreases |w|
  {
    var s := w + rest;
    if |w| > 1 {
      assert s[1..] == w[1..] + rest;
      TokenLengthOfToken(w[1..], rest);
    }
  }

  /** Words free of whitespace, joined with single spaces, split back into
      exactly those words. */
  lemma {:induction false} SplitJoinedWords(words: seq<string>)
    requires forall i :: 0 <= i < |words| ==> IsToken(words[i])
    ensures Split(Join(words, " ")) == words
    decreases |words|
  {
    if |words| == 1 {
      var w := words[0];
      TokenLengthOfToken(w, "");
      assert w + "" == w;
      assert w[..|w|] == w && w[|w|..] == [];
    } else if |words| > 1 {
      var w := words[0];
      var rest := Join(words[1..], " ");
      var s := w + " " + rest;
      assert Join(words, " ") == s;
      assert Split(s) == [w] + Split(" " + rest) by {
        assert s == w + (" " + rest);
        TokenLengthOfToken(w, " " + rest);
        assert s[..|w|] == w;
        assert s[|w|..] == " " + rest;
      }
      assert Split(" " + rest) == Split(rest) by {
        assert (" " + rest)[1..] == rest;
      }
      SplitJoinedWords(words[1..]);
      assert words == [w] + words[1..];
    }
  }

  /** A run of whitespace, possibly empty. */
  predicate IsGap(g: string) {
    forall k :: 0 <= k < |g| ==> IsSpace(g[k])
  }

  /** The text around and between the pieces of `str.split()`: the whitespace
      before the first piece, between each neighbouring pair, and after the
      last. */
  function Gaps(s: string): (gaps: seq<string>)
    ensures |gaps| == |Split(s)| + 1
    decreases |s|
  {
    if s == [] then [[]]
    else if IsSpace(s[0]) then
      var later := Gaps(s[1..]);
      [[s[0]] + later[0]] + later[1..]
    else
      [[]] + Gaps(s[TokenLength(s)..])
  }

  /** The gaps and pieces laid end to end: gap, piece, gap, ..., piece, gap. */
  function Weave(gaps: seq<string>, tokens: seq<string>): string
    requires |gaps| == |tokens| + 1
    decreases |tokens|
  {
    if tokens == [] then gaps[0] else gaps[0] + tokens[0] + Weave(gaps[1..], tokens[1..])
  }

  lemma {:induction false} WeaveWiden(p: string, gaps: seq<string>, tokens: seq<string>)
    requires |gaps| == |tokens| + 1
    ensures Weave([p + gaps[0]] + gaps[1..], tokens) == p + Weave(gaps, tokens)
  {
    var wider := [p + gaps[0]] + gaps[1..];
    assert wider[0] == p + gaps[0] && wider[1..] == gaps[1..];
    if tokens != [] {
      var after := Weave(gaps[1..], tokens[1..]);
      assert p + gaps[0] + tokens[0] + after == p + (gaps[0] + tokens[0] + after);
    }
  }

  /** `str.split()` cuts the text into whitespace and maximal non-whitespace
      runs: the text is the gaps and the pieces in alternation, every gap is
      whitespace, and every gap between two pieces holds at least one
      whitespace character, so each piece ends at the end of the text or right
      before whitespace, and the pieces together are the text's
      non-whitespace characters in order. */
  lemma {:induction false} SplitLayout(s: string)
    ensures var tokens := Split(s);
            var gaps := Gaps(s);
            && (forall i :: 0 <= i < |gaps| ==> IsGap(gaps[i]))
            && (forall i :: 0 < i < |tokens| ==> gaps[i] != [])
            && s == Weave(gaps, tokens)
  {
    GapsAreWhitespace(s);
    InnerGapsNonEmpty(s);
    WeaveSplit(s);
  }

  lemma {:induction false} GapsAreWhitespace(s: string)
    ensures forall i :: 0 <= i < |Gaps(s)| ==> IsGap(Gaps(s)[i])
    decreases |s|
  {
    if s == [] {
    } else if IsSpace(s[0]) {
      var later := Gaps(s[1..]);
      GapsAreWhitespace(s[1..]);
      GapsOfSpace(s);
      GapCons(s[0], later[0]);
    } else {
      GapsAreWhitespace(s[TokenLength(s)..]);
      GapsOfToken(s);
    }
  }

  lemma {:induction false} InnerGapsNonEmpty(s: string)
    ensures forall i :: 0 < i < |Split(s)| ==> Gaps(s)[i] != []
    decreases |s|
  {
    if s == [] {
    } else if IsSpace(s[0]) {
      InnerGapsNonEmpty(s[1..]);
      GapsOfSpace(s);
      assert Split(s) == Split(s[1..]);
    } else {
      var rest := s[TokenLength(s)..];
      InnerGapsNonEmpty(rest);
      GapsOfToken(s);
      assert |Split(s)| == 1 + |Split(rest)|;
      if Split(rest) != [] {
        assert rest != [] && IsSpace(rest[0]);
        GapsOfSpace(rest);
      }
    }
  }

  /** The gaps of text that starts with whitespace: that character widens the
      first gap of the rest. */
  lemma {:induction false} GapsOfSpace(s: string)
    requires s != [] && IsSpace(s[0])
    ensures |Gaps(s)| == |Gaps(s[1..])|
    ensures Gaps(s)[0] == [s[0]] + Gaps(s[1..])[0]
    ensures forall i :: 1 <= i < |Gaps(s)| ==> Gaps(s)[i] == Gaps(s[1..])[i]
  {
  }

  /** The gaps of text that starts with a piece: an empty gap, then the gaps
      of the text after the piece. */
  lemma {:induction false} GapsOfToken(s: string)
    requires s != [] && !IsSpace(s[0])
    ensures |Gaps(s)| == 1 + |Gaps(s[TokenLength(s)..])|
    ensures Gaps(s)[0] == []
    ensures forall i :: 1 <= i < |Gaps(s)| ==> Gaps(s)[i] == Gaps(s[TokenLength(s)..])[i - 1]
  {
  }

  lemma {:induction false} GapCons(c: char, g: string)
    requires IsSpace(c) && IsGap(g)
    ensures IsGap([c] + g)
  {
    forall k | 1 <= k < |[c] + g|
      ensures IsSpace(([c] + g)[k])
    {
      assert ([c] + g)[k] == g[k - 1];
    }
  }

  lemma {:induction false} WeaveSplit(s: string)
    ensures s == Weave(Gaps(s), Split(s))
    decreases |s|
  {
    if s == [] {
    } else if IsSpace(s[0]) {
      WeaveSplit(s[1..]);
      WeaveOfSpace(s);
      ConsDrop(s);
    } else {
      WeaveSplit(s[TokenLength(s)..]);
      WeaveOfToken(s);
      TakeDrop(s, TokenLength(s));
    }
  }

  lemma {:induction false} WeaveOfSpace(s: string)
    requires s != [] && IsSpace(s[0])
    ensures Weave(Gaps(s), Split(s)) == [s[0]] + Weave(Gaps(s[1..]), Split(s[1..]))
  {
    var later := Gaps(s[1..]);
    assert Gaps(s) == [[s[0]] + later[0]] + later[1..];
    assert Split(s) == Split(s[1..]);
    WeaveWiden([s[0]], later, Split(s[1..]));
  }

  lemma {:induction false} WeaveOfToken(s: string)
    requires s != [] && !IsSpace(s[0])
    ensures Weave(Gaps(s), Split(s)) == s[..TokenLength(s)] + Weave(Gaps(s[TokenLength(s)..]), Split(s[TokenLength(s)..]))
  {
    var n := TokenLength(s);
    var gaps := Gaps(s);
    var tokens := Split(s);
    assert gaps[0] == [] && gaps[1..] == Gaps(s[n..]);
    assert tokens[0] == s[..n] && tokens[1..] == Split(s[n..]);
    assert [] + s[..n] == s[..n];
  }

  lemma {:induction false} ConsDrop(s: string)
    requires s != []
    ensures s == [s[0]] + s[1..]
  {
  }

  lemma {:induction false} TakeDrop(s: string, n: int)
    requires 0 <= n <= |s|
    ensures s == s[..n] + s[n..]
  {
  }

  // ---------------------------------------------------------------------
  // str.split(sep) — explicit separator
  // ---------------------------------------------------------------------

  predicate OccursAt(s: string, sep: string, j: int) {
    0 <= j && j + |sep| <= |s| && s[j..j + |sep|] == sep
  }

  /** The position of the first occurrence of `sep` in `s`, as `str.find`. */
  function Find(s: string, sep: string): (r: Option<nat>)
    requires sep != []
    ensures r.Some? ==> OccursAt(s, sep, r.value)
    ensures forall j :: 0 <= j && (r.None? || j < r.value) ==> !OccursAt(s, sep, j)
    decreases |s|
  {
    if |s| < |sep| then None
    else if s[..|sep|] == sep then Some(0)
    else
      OccursShift(s, sep);
      match Find(s[1..], sep)
      case None => None
      case Some(i) => Some(i + 1)
  }

  lemma {:induction false} OccursShift(s: string, sep: string)
    requires s != []
    ensures forall j {:trigger OccursAt(s, sep, j)} :: 1 <= j ==> (OccursAt(s, sep, j) <==> OccursAt(s[1..], sep, j - 1))
  {
    forall j | 1 <= j
      ensures OccursAt(s, sep, j) == OccursAt(s[1..], sep, j - 1)
    {
      if j + |sep| <= |s| {
        SliceOfDrop(s, 1, j - 1, j - 1 + |sep|);
      }
    }
  }

  /** A slice of a suffix `s[d..]` is the slice of `s` shifted by `d`. */
  lemma {:induction false} SliceOfDrop(s: string, d: int, a: int, b: int)
    requires 0 <= d <= |s| && 0 <= a <= b <= |s| - d
    ensures s[d..][a..b] == s[d + a..d + b]
  {
    forall k | 0 <= k < b - a
      ensures s[d..][a..b][k] == s[d + a..d + b][k]
    {
    }
  }

  /** Python's `s.split(sep)` for a non-empty `sep`: the text between
      successive non-overlapping occurrences of `sep`, left to right. */
  function SplitOn(s: string, sep: string): (parts: seq<string>)
    requires sep != []
    ensures |parts| >= 1
    decreases |s|
  {
    match Find(s, sep)
    case None => [s]
    case Some(i) => [s[..i]] + SplitOn(s[i + |sep|..], sep)
  }

  /** Splitting on `sep` and joining with `sep` gives back the original text. */
  lemma {:induction false} JoinSplitOn(s: string, sep: string)
    requires sep != []
    ensures Join(SplitOn(s, sep), sep) == s
    decreases |s|
  {
    match Find(s, sep)
    case None =>
    case Some(i) =>
      var rest := s[i + |sep|..];
      JoinSplitOn(rest, sep);
      JoinCons(s[..i], SplitOn(rest, sep), sep);
      Around(s, i, sep);
  }

  /** Joining a part in front of non-empty parts puts one `sep` after it. */
  lemma {:induction false} JoinCons(first: string, parts: seq<string>, sep: string)
    requires parts != []
    ensures Join([first] + parts, sep) == first + sep + Join(parts, sep)
  {
    assert ([first] + parts)[1..] == parts;
  }

  /** Text is the part before an occurrence of `sep`, `sep`, and the rest. */
  lemma {:induction false} Around(s: string, i: int, sep: string)
    requires OccursAt(s, sep, i)
    ensures s == s[..i] + sep + s[i + |sep|..]
  {
    assert s == s[..i] + s[i..i + |sep|] + s[i + |sep|..];
  }

  /** No piece of `s.split(sep)` holds `sep`. */
  lemma {:induction false} SplitOnPieces(s: string, sep: string)
    requires sep != []
    ensures forall k :: 0 <= k < |SplitOn(s, sep)| ==> Find(SplitOn(s, sep)[k], sep).None?
    decreases |s|
  {
    match Find(s, sep)
    case None =>
    case Some(i) =>
      var rest := s[i + |sep|..];
      var parts := SplitOn(s, sep);
      var tail := SplitOn(rest, sep);
      assert parts == [s[..i]] + tail;
      assert Find(parts[0], sep).None? by {
        SplitOnFirst(s, sep);
      }
      SplitOnPieces(rest, sep);
      forall k | 1 <= k < |parts|
        ensures Find(parts[k], sep).None?
      {
        assert parts[k] == tail[k - 1];
      }
  }

  /** The last piece of `s.split(sep)` holds no `sep`; it is all of `s` when
      there is one piece, and otherwise `s` is the other pieces joined, one
      more `sep`, and the last piece. */
  lemma {:induction false} SplitOnLast(s: string, sep: string)
    requires sep != []
    ensures var parts := SplitOn(s, sep);
            var last := parts[|parts| - 1];
            && Find(last, sep).None?
            && (|parts| == 1 ==> last == s)
            && (|parts| > 1 ==> s == Join(parts[..|parts| - 1], sep) + sep + last)
  {
    var parts := SplitOn(s, sep);
    var last := parts[|parts| - 1];
    SplitOnPieces(s, sep);
    JoinSplitOn(s, sep);
    if |parts| > 1 {
      assert parts == parts[..|parts| - 1] + [last];
      JoinAppend(parts[..|parts| - 1], last, sep);
    }
  }

  /** The first piece of `s.split(sep)` starts `s`, holds no `sep`, and ends
      where `s` ends or, when `s` holds `sep`, exactly where the first `sep`
      begins; there is one piece exactly when `s` holds no `sep`. */
  lemma {:induction false} SplitOnFirst(s: string, sep: string)
    requires sep != []
    ensures var first := SplitOn(s, sep)[0];
            && |first| <= |s|
            && s[..|first|] == first
            && Find(first, sep).None?
            && (|first| == |s| || OccursAt(s, sep, |first|))
    ensures Find(s, sep).Some? ==> |SplitOn(s, sep)[0]| == Find(s, sep).value
    ensures |SplitOn(s, sep)| == 1 <==> Find(s, sep).None?
  {
    match Find(s, sep)
    case None =>
    case Some(i) =>
      var first := s[..i];
      assert SplitOn(s, sep)[0] == first;
      forall j | 0 <= j
        ensures OccursAt(first, sep, j) ==> OccursAt(s, sep, j)
      {
        if j + |sep| <= |first| {
          assert first[j..j + |sep|] == s[j..j + |sep|];
        }
      }
  }

  /** Text in which the separator's first character never appears is one
      piece. */
  lemma {:induction false} SplitOnWithout(a: string, sep: string)
    requires sep != []
    requires forall j :: 0 <= j < |a| ==> a[j] != sep[0]
    ensures SplitOn(a, sep) == [a]
  {
    forall j | 0 <= j
      ensures !OccursAt(a, sep, j)
    {
      if j + |sep| <= |a| {
        assert a[j..j + |sep|][0] == a[j];
      }
    }
  }

  /** A leading piece in which the separator's first character never
      appears is split off at the separator that follows it. */
  lemma {:induction false} SplitOnFront(a: string, sep: string, b: string)
    requires sep != []
    requires forall j :: 0 <= j < |a| ==> a[j] != sep[0]
    ensures SplitOn(a + sep + b, sep) == [a] + SplitOn(b, sep)
  {
    var s := a + sep + b;
    assert OccursAt(s, sep, |a|) by {
      assert s[|a|..|a| + |sep|] == sep;
    }
    forall j | 0 <= j < |a|
      ensures !OccursAt(s, sep, j)
    {
      if j + |sep| <= |s| {
        assert s[j..j + |sep|][0] == s[j] == a[j];
      }
    }
    assert Find(s, sep) == Some(|a|);
    assert s[..|a|] == a;
    assert s[|a| + |sep|..] == b;
  }

  // ---------------------------------------------------------------------
  // int(text) and str(number)
  // ---------------------------------------------------------------------

  // The whitespace `int()` strips from both ends of its text before it reads
  // the number.

  function StripLeft(s: string): (t: string)
    ensures |t| <= |s|
    ensures t == [] || !IsIntSpace(t[0])
    decreases |s|
  {
    if s != [] && IsIntSpace(s[0]) then StripLeft(s[1..]) else s
  }

  function StripRight(s: string): (t: string)
    ensures |t| <= |s| && t == s[..|t|]
    ensures t == [] || !IsIntSpace(t[|t| - 1])
    decreases |s|
  {
    if s != [] && IsIntSpace(s[|s| - 1]) then StripRight(s[..|s| - 1]) else s
  }

  /** `StripLeft` keeps a suffix of the text: its characters are those of
      the text, shifted by the number removed. */
  lemma {:induction false} StripLeftKeeps(s: string, i: int)
    requires |s| - |StripLeft(s)| <= i < |s|
    ensures StripLeft(s)[i - (|s| - |StripLeft(s)|)] == s[i]
    decreases |s|
  {
    if s != [] && IsIntSpace(s[0]) {
      StripLeftKeeps(s[1..], i - 1);
    }
  }

  /** What `StripLeft` removes is whitespace `int()` skips. */
  lemma {:induction false} StripLeftRemovesSpaces(s: string, i: int)
    requires 0 <= i < |s| - |StripLeft(s)|
    ensures IsIntSpace(s[i])
    decreases |s|
  {
    if i > 0 {
      StripLeftRemovesSpaces(s[1..], i - 1);
    }
  }

  /** What `StripRight` removes is whitespace `int()` skips. */
  lemma {:induction false} StripRightRemovesSpaces(s: string, i: int)
    requires |StripRight(s)| <= i < |s|
    ensures IsIntSpace(s[i])
    decreases |s|
  {
    if i < |s| - 1 {
      StripRightRemovesSpaces(s[..|s| - 1], i);
    }
  }

  /** The text `int()` reads: its whitespace removed from both ends. */
  function Strip(s: string): string {
    StripRight(StripLeft(s))
  }

  /** The digit strings Python's `int()` accepts in base 10: digits, with
      single underscores allowed between two digits. Starting and ending
      with a digit and never holding two underscores in a row is the same
      as every underscore sitting between two digits. */
  predicate IsDecimalLiteral(d: string) {
    && d != []
    && IsDigit(d[0])
    && IsDigit(d[|d| - 1])
    && (forall i :: 0 <= i < |d| ==> IsDigit(d[i]) || d[i] == '_')
    && NoDoubleUnderscore(d)
  }

  predicate NoDoubleUnderscore(d: string)
    decreases |d|
  {
    |d| < 2 || (!(d[0] == '_' && d[1] == '_') && NoDoubleUnderscore(d[1..]))
  }

  /** A non-empty run of digits is a decimal literal. */
  lemma {:induction false} DigitsAreLiteral(d: string)
    requires d != [] && forall i :: 0 <= i < |d| ==> IsDigit(d[i])
    ensures IsDecimalLiteral(d)
    decreases |d|
  {
    if |d| >= 2 {
      DigitsAreLiteral(d[1..]);
    }
  }

  /** The value of a digit string, underscores ignored. */
  function DecimalValue(d: string): nat
    decreases |d|
  {
    if d == [] then 0
    else if IsDigit(d[|d| - 1]) then 10 * DecimalValue(d[..|d| - 1]) + DigitValue(d[|d| - 1])
    else DecimalValue(d[..|d| - 1])
  }

  /** Python's `int(text)` in base 10: surrounding whitespace (`IsIntSpace`)
      is ignored, then an optional sign and a decimal literal; anything else
      raises `ValueError`, here `None`. */
  function PyInt(text: string): Option<int> {
    var t := Strip(text);
    if t != [] && (t[0] == '-' || t[0] == '+') then
      if IsDecimalLiteral(t[1..]) then
        var v: int := DecimalValue(t[1..]);
        Some(if t[0] == '-' then -v else v)
      else None
    else if IsDecimalLiteral(t) then Some(DecimalValue(t))
    else None
  }

  /** Stripping removes whitespace only: every other character of the text
      is still there. */
  lemma {:induction false} StripKeeps(s: string, i: nat)
    requires i < |s| && !IsIntSpace(s[i])
    ensures s[i] in Strip(s)
  {
    var l := StripLeft(s);
    var d := |s| - |l|;
    if i < d {
      StripLeftRemovesSpaces(s, i);
    }
    StripLeftKeeps(s, i);
    var t := StripRight(l);
    if |t| <= i - d {
      StripRightRemovesSpaces(l, i - d);
    }
    assert t[i - d] == s[i];
  }

  /** The characters `int()` can accept once whitespace is stripped. */
  predicate IsIntChar(c: char) {
    IsDigit(c) || c == '_' || c == '+' || c == '-'
  }

  lemma {:induction false} LiteralChar(d: string, i: nat)
    requires IsDecimalLiteral(d) && i < |d|
    ensures IsDigit(d[i]) || d[i] == '_'
  {
  }

  /** The text `int()` accepts holds only digits, underscores and a sign
      once whitespace is stripped. */
  lemma {:induction false} PyIntChars(text: string)
    ensures PyInt(text).Some? ==> forall j :: 0 <= j < |Strip(text)| ==> IsIntChar(Strip(text)[j])
  {
    var t := Strip(text);
    if PyInt(text).Some? {
      if t != [] && (t[0] == '-' || t[0] == '+') {
        var d := t[1..];
        assert IsDecimalLiteral(d);
        forall j | 0 <= j < |t|
          ensures IsIntChar(t[j])
        {
          if j > 0 {
            assert t[j] == d[j - 1];
            LiteralChar(d, j - 1);
          }
        }
      } else {
        assert IsDecimalLiteral(t);
        forall j | 0 <= j < |t|
          ensures IsIntChar(t[j])
        {
          LiteralChar(t, j);
        }
      }
    }
  }

  /** `int()` rejects any text holding a character that is neither
      whitespace it skips, a digit, an underscore nor a sign. */
  lemma {:induction false} PyIntRejects(text: string, i: nat)
    requires i < |text| && !IsIntSpace(text[i]) && !IsIntChar(text[i])
    ensures PyInt(text).None?
  {
    StripKeeps(text, i);
    PyIntChars(text);
  }

  /** The separator controls U+001C..U+001F are whitespace to `str.split()`
      but not to `int()`, which rejects any text holding one. */
  lemma {:induction false} IntRejectsSeparatorControls(c: char, text: string)
    requires '\U{1c}' <= c <= '\U{1f}'
    ensures IsSpace(c)
    ensures PyInt([c] + text).None?
  {
    PyIntRejects([c] + text, 0);
  }

  /** A prefix of text without `sep` holds no `sep` either. */
  lemma {:induction false} PrefixWithout(s: string, prefix: string, sep: string)
    requires sep != [] && |prefix| <= |s| && s[..|prefix|] == prefix
    requires Find(s, sep).None?
    ensures Find(prefix, sep).None?
  {
    forall j | 0 <= j
      ensures OccursAt(prefix, sep, j) ==> OccursAt(s, sep, j)
    {
      if j + |sep| <= |prefix| {
        assert prefix[j..j + |sep|] == s[j..j + |sep|];
      }
    }
  }

  /** The decimal digits of a natural number, most significant first. */
  function NatDigits(n: nat): (d: string)
    ensures d != [] && forall i :: 0 <= i < |d| ==> IsDigit(d[i])
    decreases n
  {
    if n < 10 then [DigitChar(n)] else NatDigits(n / 10) + [DigitChar(n % 10)]
  }

  /** Python's `str(n)` for an `int`. */
  function IntToString(n: int): string {
    if n < 0 then "-" + NatDigits(-n) else NatDigits(n)
  }

  lemma {:induction false} NatDigitsValue(n: nat)
    ensures DecimalValue(NatDigits(n)) == n
    decreases n
  {
    var d := NatDigits(n);
    if n >= 10 {
      NatDigitsValue(n / 10);
      assert d[..|d| - 1] == NatDigits(n / 10);
    } else {
      assert d[..|d| - 1] == [];
    }
  }

  /** Text that neither starts nor ends with whitespace is its own strip. */
  lemma {:induction false} StripWithoutSpaces(s: string)
    requires s != [] ==> !IsIntSpace(s[0]) && !IsIntSpace(s[|s| - 1])
    ensures Strip(s) == s
  {
    assert StripLeft(s) == s;
  }

  lemma {:induction false} PyIntOfDigits(d: string)
    requires d != [] && forall i :: 0 <= i < |d| ==> IsDigit(d[i])
    ensures PyInt(d) == Some(DecimalValue(d) as int)
  {
    DigitsAreLiteral(d);
    StripWithoutSpaces(d);
  }

  lemma {:induction false} PyIntOfNegatedDigits(d: string)
    requires d != [] && forall i :: 0 <= i < |d| ==> IsDigit(d[i])
    ensures PyInt("-" + d) == Some(-(DecimalValue(d) as int))
  {
    var m := "-" + d;
    assert Strip(m) == m by {
      assert m[|m| - 1] == d[|d| - 1];
      StripWithoutSpaces(m);
    }
    assert m[1..] == d;
    DigitsAreLiteral(d);
  }

  /** `int(str(n)) == n`: printing a number and parsing it back is the
      identity. */
  lemma {:induction false} IntRoundTrip(n: int)
    ensures PyInt(IntToString(n)) == Some(n)
  {
    var m: nat := if n < 0 then -n else n;
    NatDigitsValue(m);
    if n < 0 {
      PyIntOfNegatedDigits(NatDigits(m));
    } else {
      PyIntOfDigits(NatDigits(m));
    }
  }

  /** The characters `str(n)` can contain. */
  lemma {:induction false} IntToStringChars(n: int)
    ensures forall i :: 0 <= i < |IntToString(n)| ==> IsDigit(IntToString(n)[i]) || IntToString(n)[i] == '-'
  {
    if n < 0 {
      var d := NatDigits(-n);
      assert IntToString(n) == "-" + d;
    }
  }
}
