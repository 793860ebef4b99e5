/** Helpers shared by the scrapers: JavaScript's notion of white space (the
    class `\s` and what `String.prototype.trim` strips), `trim`, `split(/\s|\n/)`,
    `replace(/\s+/g, ' ')`, `String(n)` for integers and `padStart(2, '0')`. */
module Common {

  datatype Option<T> = None | Some(value: T)

  /** The effect of a run that writes `records` to the file at `path`. */
  datatype Written<T> = Written(path: string, records: seq<T>)

  // ---------------------------------------------------------------------------
  // Characters

  /** The characters matched by `\s` in a JavaScript regular expression; `trim`
      strips exactly the same set (white space and line terminators). */
  predicate IsWhitespace(c: char)
  {
    || c == ' ' || c == '\t' || c == '\n' || c == '\r' || c == '\U{B}' || c == '\U{C}'
    || c == '\U{A0}' || c == '\U{1680}' || ('\U{2000}' <= c <= '\U{200A}')
    || c == '\U{2028}' || c == '\U{2029}' || c == '\U{202F}' || c == '\U{205F}'
    || c == '\U{3000}' || c == '\U{FEFF}'
  }

  /** The characters matched by `\d` (ASCII digits only, as in JavaScript). */
  predicate IsDigit(c: char)
  {
    '0' <= c <= '9'
  }

  predicate AllDigits(s: string)
  {
    forall i :: 0 <= i < |s| ==> IsDigit(s[i])
  }

  predicate NoWhitespace(s: string)
  {
    forall i :: 0 <= i < |s| ==> !IsWhitespace(s[i])
  }

  predicate StartsWith(s: string, prefix: string)
  {
    |prefix| <= |s| && s[..|prefix|] == prefix
  }

  predicate EndsWith(s: string, suffix: string)
  {
    |suffix| <= |s| && s[|s| - |suffix|..] == suffix
  }

  // ---------------------------------------------------------------------------
  // Decimal numbers

  function DigitChar(d: nat): (c: char)
    requires d < 10
    ensures IsDigit(c) && DigitValue(c) == d
  {
    ['0', '1', '2', '3', '4', '5', '6', '7', '8', '9'][d]
  }

  function DigitValue(c: char): nat
    requires IsDigit(c)
  {
    c as nat - '0' as nat
  }

  /** The value of a string of decimal digits. */
  function DecimalValue(s: string): nat
    requires AllDigits(s)
  {
    if s == [] then 0 else 10 * DecimalValue(s[..|s| - 1]) + DigitValue(s[|s| - 1])
  }

  /** `String(n)` for a non-negative integer: its decimal digits, no leading zero. */
  function NatToString(n: nat): (s: string)
    ensures 1 <= |s| && AllDigits(s)
    ensures s[0] == '0' ==> n == 0
  {
    if n < 10 then [DigitChar(n)] else NatToString(n / 10) + [DigitChar(n % 10)]
  }

  /** `String(i)` for any integer: a minus sign before the digits of a negative one. */
  function IntToString(i: int): (s: string)
    ensures i >= 0 ==> s == NatToString(i)
    ensures i < 0 ==> s == "-" + NatToString(-i)
  {
    if i < 0 then "-" + NatToString(-i) else NatToString(i)
  }

  /** Different numbers render differently. */
  lemma NatToStringInjective(m: nat, n: nat)
    requires NatToString(m) == NatToString(n)
    ensures m == n
  {
    NatToStringValue(m);
    NatToStringValue(n);
  }

  /** Two strings that differ only after a common prefix are equal when the
      wholes are. */
  lemma SamePrefixSameRest(p: string, a: string, b: string)
    requires p + a == p + b
    ensures a == b
  {
    assert (p + a)[|p|..] == a && (p + b)[|p|..] == b;
  }

  /** Reading back the digits `String(n)` renders gives `n`. */
  lemma {:induction false} NatToStringValue(n: nat)
    ensures DecimalValue(NatToString(n)) == n
  {
    var s := NatToString(n);
    if n >= 10 {
      NatToStringValue(n / 10);
      assert s[..|s| - 1] == NatToString(n / 10);
    }
  }

  /** `String(n)` has as many digits as `n` has decimal places. */
  lemma NatToStringLength(n: nat)
    ensures n < 10 ==> |NatToString(n)| == 1
    ensures 10 <= n < 100 ==> |NatToString(n)| == 2
    ensures 1000 <= n < 10000 ==> |NatToString(n)| == 4
  {
    if n >= 10 {
      NatToStringLength(n / 10);
    }
  }

  /** `padStart(2, '0')`: left-pads with '0' to two characters; longer strings are unchanged. */
  function PadStart2(s: string): (r: string)
    ensures |s| >= 2 ==> r == s
    ensures |s| < 2 ==> |r| == 2 && r[2 - |s|..] == s && forall i :: 0 <= i < 2 - |s| ==> r[i] == '0'
  {
    if |s| >= 2 then s else if |s| == 1 then "0" + s else "00"
  }

  /** `String(n).padStart(2, '0')`, as the scrapers render months, days, hours and minutes. */
  function Pad2(n: nat): string
  {
    PadStart2(NatToString(n))
  }

  /** A value below 100 renders as exactly two digits that read back as the value. */
  lemma Pad2Digits(n: nat)
    requires n < 100
    ensures |Pad2(n)| == 2 && AllDigits(Pad2(n))
    ensures DecimalValue(Pad2(n)) == n
  {
    var s := NatToString(n);
    NatToStringLength(n);
    NatToStringValue(n);
    if n < 10 {
      assert Pad2(n) == "0" + s;
      assert Pad2(n)[..1] == "0";
    }
  }

  /** Two values below 100 with the same two-digit rendering are equal. */
  lemma Pad2Injective(a: nat, b: nat)
    requires a < 100 && b < 100
    requires Pad2(a) == Pad2(b)
    ensures a == b
  {
    Pad2Digits(a);
    Pad2Digits(b);
  }

  // ---------------------------------------------------------------------------
  // Trimming, splitting and collapsing white space

  function TrimStart(s: string): (r: string)
    ensures |r| <= |s| && r == s[|s| - |r|..]
    ensures r != [] ==> !IsWhitespace(r[0])
    ensures forall i :: 0 <= i < |s| - |r| ==> IsWhitespace(s[i])
  {
    if s != [] && IsWhitespace(s[0]) then TrimStart(s[1..]) else s
  }

  function TrimEnd(s: string): (r: string)
    ensures |r| <= |s| && r == s[..|r|]
    ensures r != [] ==> !IsWhitespace(r[|r| - 1])
    ensures forall i :: |r| <= i < |s| ==> IsWhitespace(s[i])
  {
    if s != [] && IsWhitespace(s[|s| - 1]) then TrimEnd(s[..|s| - 1]) else s
  }

  /** `String.prototype.trim`: drops white space at both ends and keeps the
      middle. The result is the slice of `s` that starts at its first and ends
      at its last non-white-space character; everything outside it is white
      space. */
  function Trim(s: string): (r: string)
    ensures r != [] ==> !IsWhitespace(r[0]) && !IsWhitespace(r[|r| - 1])
    ensures TrimOffset(s) + |r| <= |s| && r == s[TrimOffset(s)..TrimOffset(s) + |r|]
    ensures forall k :: 0 <= k < TrimOffset(s) ==> IsWhitespace(s[k])
    ensures forall k :: TrimOffset(s) + |r| <= k < |s| ==> IsWhitespace(s[k])
    ensures NoWhitespace(s) ==> r == s
  {
    var t := TrimStart(s);
    var r := TrimEnd(t);
    SuffixThenPrefix(s, t, r);
    r
  }

  /** Cutting white space off the end of a suffix `t` of `s` leaves a slice of
      `s` followed in `s` by white space only. */
  lemma SuffixThenPrefix(s: string, t: string, r: string)
    requires |t| <= |s| && t == s[|s| - |t|..]
    requires |r| <= |t| && r == t[..|r|]
    requires forall k :: |r| <= k < |t| ==> IsWhitespace(t[k])
    ensures r == s[|s| - |t|..|s| - |t| + |r|]
    ensures forall k :: |s| - |t| + |r| <= k < |s| ==> IsWhitespace(s[k])
  {
    var i := |s| - |t|;
    assert forall k :: i + |r| <= k < |s| ==> s[k] == t[k - i];
  }

  /** How many characters `trim` drops at the start. */
  function TrimOffset(s: string): nat
  {
    |s| - |TrimStart(s)|
  }

  /** The text with every white-space character removed. */
  function NonWs(s: string): (r: string)
    ensures |r| <= |s|
    ensures NoWhitespace(r)
  {
    if s == [] then [] else (if IsWhitespace(s[0]) then [] else [s[0]]) + NonWs(s[1..])
  }

  /** Removing white space from two pieces removes it from their concatenation. */
  lemma {:induction false} NonWsAppend(a: string, b: string)
    ensures NonWs(a + b) == NonWs(a) + NonWs(b)
  {
    if a == [] {
      assert a + b == b;
    } else {
      var head: string := if IsWhitespace(a[0]) then [] else [a[0]];
      assert (a + b)[0] == a[0] && (a + b)[1..] == a[1..] + b;
      assert NonWs(a + b) == head + NonWs(a[1..] + b);
      NonWsAppend(a[1..], b);
      assert NonWs(a) == head + NonWs(a[1..]);
    }
  }

  /** A text made only of white space has nothing left once it is removed. */
  lemma {:induction false} NonWsOfWhitespace(s: string)
    requires forall k :: 0 <= k < |s| ==> IsWhitespace(s[k])
    ensures NonWs(s) == []
  {
    if s != [] {
      NonWsOfWhitespace(s[1..]);
    }
  }

  /** A text without white space is its own non-white-space text. */
  lemma {:induction false} NonWsOfNoWhitespace(s: string)
    requires NoWhitespace(s)
    ensures NonWs(s) == s
  {
    if s != [] {
      NonWsOfNoWhitespace(s[1..]);
    }
  }

  /** Trimming removes white space only. */
  lemma TrimKeepsText(s: string)
    ensures NonWs(Trim(s)) == NonWs(s)
  {
    NonWsTrimStart(s);
    NonWsTrimEnd(TrimStart(s));
  }

  /** Dropping trailing white space removes white space only. */
  lemma NonWsTrimEnd(t: string)
    ensures NonWs(TrimEnd(t)) == NonWs(t)
  {
    var r := TrimEnd(t);
    var back := t[|r|..];
    assert t == r + back;
    NonWsAppend(r, back);
    NonWsOfWhitespace(back);
    assert NonWs(t) == NonWs(r) + [];
  }

  /** The white-space characters of `s`, in order. */
  function Separators(s: string): (seps: string)
    ensures forall k :: 0 <= k < |seps| ==> IsWhitespace(seps[k])
  {
    if s == [] then [] else (if IsWhitespace(s[0]) then [s[0]] else []) + Separators(s[1..])
  }

  /** The parts put back together, the `k`-th separator between part `k` and part `k + 1`. */
  function JoinWith(parts: seq<string>, seps: string): string
    requires |parts| == |seps| + 1
  {
    if seps == [] then parts[0] else parts[0] + [seps[0]] + JoinWith(parts[1..], seps[1..])
  }

  /** Putting a character before the first part puts it before the whole. */
  lemma {:induction false} JoinWithCons(c: char, parts: seq<string>, seps: string)
    requires |parts| == |seps| + 1
    ensures JoinWith([[c] + parts[0]] + parts[1..], seps) == [c] + JoinWith(parts, seps)
  {
    var moved := [[c] + parts[0]] + parts[1..];
    assert moved[0] == [c] + parts[0] && moved[1..] == parts[1..];
  }

  /** `s.split(/\s|\n/)`: cuts at every single white-space character, so two
      adjacent separators leave an empty part between them. There is always
      at least one part, and no part holds white space. */
  function SplitWhitespace(s: string): (parts: seq<string>)
    ensures |parts| >= 1
    ensures forall k :: 0 <= k < |parts| ==> NoWhitespace(parts[k])
  {
    if s == [] then [""]
    else if IsWhitespace(s[0]) then [""] + SplitWhitespace(s[1..])
    else
      var rest := SplitWhitespace(s[1..]);
      [[s[0]] + rest[0]] + rest[1..]
  }

  /** The parts, put back together with the white-space characters cut at,
      give `s` again; so there is one part more than there are white-space
      characters. */
  lemma {:induction false} SplitWhitespaceRoundTrip(s: string)
    ensures |SplitWhitespace(s)| == |Separators(s)| + 1
    ensures JoinWith(SplitWhitespace(s), Separators(s)) == s
  {
    if s != [] {
      var parts := SplitWhitespace(s);
      var rest := SplitWhitespace(s[1..]);
      SplitWhitespaceRoundTrip(s[1..]);
      assert s == [s[0]] + s[1..];
      if IsWhitespace(s[0]) {
        assert parts == [""] + rest && parts[1..] == rest;
        assert Separators(s) == [s[0]] + Separators(s[1..]);
      } else {
        JoinWithCons(s[0], rest, Separators(s[1..]));
        assert Separators(s) == Separators(s[1..]);
      }
    }
  }

  /** No run of white space is longer than one plain space. */
  predicate SingleSpaced(s: string)
  {
    && (forall i :: 0 <= i < |s| && IsWhitespace(s[i]) ==> s[i] == ' ')
    && (forall i :: 0 <= i < |s| - 1 ==> !(s[i] == ' ' && s[i + 1] == ' '))
  }

  /** `s.replace(/\s+/g, ' ')`: every maximal run of white space becomes one space. */
  function CollapseWhitespace(s: string): (r: string)
    ensures SingleSpaced(r)
    ensures |r| <= |s|
    ensures r != [] && s != [] ==> (IsWhitespace(r[0]) <==> IsWhitespace(s[0]))
    ensures (r == []) <==> (s == [])
    ensures NonWs(r) == NonWs(s)
    decreases |s|
  {
    if s == [] then []
    else if IsWhitespace(s[0]) then
      var tail := CollapseWhitespace(TrimStart(s[1..]));
      NonWsTrimStart(s[1..]);
      assert (" " + tail)[1..] == tail;
      " " + tail
    else
      var tail := CollapseWhitespace(s[1..]);
      assert ([s[0]] + tail)[1..] == tail;
      [s[0]] + tail
  }

  /** Dropping leading white space removes white space only. */
  lemma {:induction false} NonWsTrimStart(s: string)
    ensures NonWs(TrimStart(s)) == NonWs(s)
  {
    if s != [] && IsWhitespace(s[0]) {
      NonWsTrimStart(s[1..]);
    }
  }

  /** Collapsing keeps whether the text ends in white space. */
  lemma {:induction false} CollapseLast(s: string)
    requires s != []
    ensures var r := CollapseWhitespace(s); IsWhitespace(r[|r| - 1]) <==> IsWhitespace(s[|s| - 1])
    decreases |s|
  {
    var r := CollapseWhitespace(s);
    if IsWhitespace(s[0]) {
      var rest := TrimStart(s[1..]);
      var tail := CollapseWhitespace(rest);
      assert r == " " + tail;
      if rest != [] {
        CollapseLast(rest);
        assert r[|r| - 1] == tail[|tail| - 1];
        assert rest[|rest| - 1] == s[|s| - 1];
      } else if |s| > 1 {
        assert r == " ";
        assert IsWhitespace(s[1..][|s| - 2]);
      }
    } else if |s| > 1 {
      var tail := CollapseWhitespace(s[1..]);
      assert r == [s[0]] + tail;
      CollapseLast(s[1..]);
      assert r[|r| - 1] == tail[|tail| - 1];
    }
  }

  // ---------------------------------------------------------------------------
  // Words

  /** The non-empty strings of `parts`, in order. */
  function NonEmpty(parts: seq<string>): seq<string>
  {
    if parts == [] then []
    else (if parts[0] == "" then [] else [parts[0]]) + NonEmpty(parts[1..])
  }

  /** The words of `s`: the non-empty parts left by cutting at white space. */
  function Words(s: string): seq<string>
  {
    NonEmpty(SplitWhitespace(s))
  }

  /** The kept parts are non-empty parts of the list. */
  lemma {:induction false} NonEmptyMembers(parts: seq<string>)
    ensures forall k :: 0 <= k < |NonEmpty(parts)| ==> NonEmpty(parts)[k] != "" && NonEmpty(parts)[k] in parts
  {
    if parts != [] {
      NonEmptyMembers(parts[1..]);
      assert parts == [parts[0]] + parts[1..];
      NonEmptyCons(parts[0], parts[1..]);
    }
  }

  /** Every word is non-empty and holds no white space. */
  lemma WordsShape(s: string)
    ensures forall k :: 0 <= k < |Words(s)| ==> Words(s)[k] != "" && NoWhitespace(Words(s)[k])
  {
    NonEmptyMembers(SplitWhitespace(s));
  }

  /** `n` plain spaces. */
  function Spaces(n: nat): (r: string)
    ensures |r| == n
  {
    seq(n, _ => ' ')
  }

  /** `words.join(' ')`: the words with one plain space between neighbours. */
  function Unwords(words: seq<string>): string
  {
    if words == [] then [] else JoinWith(words, Spaces(|words| - 1))
  }

  /** A text is empty or starts with white space exactly when its first part is empty. */
  lemma {:induction false} SplitFirstPart(s: string)
    ensures SplitWhitespace(s)[0] == [] <==> (s == [] || IsWhitespace(s[0]))
  {
  }

  /** One more character in front of the text: white space opens a new empty
      part, a word character joins the first part. */
  lemma {:induction false} SplitCons(c: char, x: string)
    ensures IsWhitespace(c) ==> SplitWhitespace([c] + x) == [""] + SplitWhitespace(x)
    ensures !IsWhitespace(c) ==>
      var p := SplitWhitespace(x); SplitWhitespace([c] + x) == [[c] + p[0]] + p[1..]
  {
    var s := [c] + x;
    assert s[0] == c && s[1..] == x;
  }

  /** Keeping the non-empty parts of a list with one more part in front. */
  lemma NonEmptyCons(q: string, ps: seq<string>)
    ensures NonEmpty([q] + ps) == (if q == "" then [] else [q]) + NonEmpty(ps)
  {
    assert ([q] + ps)[0] == q && ([q] + ps)[1..] == ps;
  }

  /** How one more character in front changes the words: white space changes
      nothing, a word character starts a new word before white space or the
      end, and otherwise joins the first word. */
  lemma {:induction false} WordsCons(c: char, x: string)
    ensures IsWhitespace(c) ==> Words([c] + x) == Words(x)
    ensures !IsWhitespace(c) && (x == [] || IsWhitespace(x[0])) ==>
      Words([c] + x) == [[c]] + Words(x)
    ensures !IsWhitespace(c) && !(x == [] || IsWhitespace(x[0])) ==>
      Words(x) != [] && Words([c] + x) == [[c] + Words(x)[0]] + Words(x)[1..]
  {
    var p := SplitWhitespace(x);
    SplitCons(c, x);
    SplitFirstPart(x);
    assert p == [p[0]] + p[1..];
    NonEmptyCons(p[0], p[1..]);
    if IsWhitespace(c) {
      NonEmptyCons("", p);
    } else {
      NonEmptyCons([c] + p[0], p[1..]);
      if p[0] == "" {
        assert [c] + p[0] == [c];
      }
    }
  }

  /** Leading white space carries no words. */
  lemma {:induction false} WordsTrimStart(s: string)
    ensures Words(TrimStart(s)) == Words(s)
  {
    if s != [] && IsWhitespace(s[0]) {
      var x := s[1..];
      assert TrimStart(s) == TrimStart(x);
      WordsTrimStart(x);
      assert s == [s[0]] + x;
      WordsCons(s[0], x);
    }
  }

  /** A text of white space only has no words. */
  lemma {:induction false} WordsOfWhitespace(z: string)
    requires forall k :: 0 <= k < |z| ==> IsWhitespace(z[k])
    ensures Words(z) == []
  {
    if z != [] {
      WordsOfWhitespace(z[1..]);
      WordsCons(z[0], z[1..]);
      assert z == [z[0]] + z[1..];
    }
  }

  /** Trailing white space carries no words. */
  lemma {:induction false} WordsAppendWhitespace(x: string, z: string)
    requires forall k :: 0 <= k < |z| ==> IsWhitespace(z[k])
    ensures Words(x + z) == Words(x)
  {
    if x == [] {
      assert x + z == z;
      WordsOfWhitespace(z);
    } else {
      var y := x[1..];
      assert x == [x[0]] + y && x + z == [x[0]] + (y + z);
      WordsAppendWhitespace(y, z);
      WordsCons(x[0], y);
      WordsCons(x[0], y + z);
      if y == [] {
        assert y + z == z;
      } else {
        assert (y + z)[0] == y[0];
      }
    }
  }

  /** Trimming keeps the words. */
  lemma {:induction false} WordsTrim(s: string)
    ensures Words(Trim(s)) == Words(s)
  {
    var t := TrimStart(s);
    assert Words(t) == Words(s) by { WordsTrimStart(s); }
    WordsTrimEnd(t);
  }

  /** Trailing white space carries no words. */
  lemma {:induction false} WordsTrimEnd(t: string)
    ensures Words(TrimEnd(t)) == Words(t)
  {
    var r := TrimEnd(t);
    assert t == r + t[|r|..];
    WordsAppendWhitespace(r, t[|r|..]);
  }

  /** Collapsing white space keeps the words: it changes only what lies between them. */
  lemma {:induction false} CollapseKeepsWords(s: string)
    ensures Words(CollapseWhitespace(s)) == Words(s)
    decreases |s|
  {
    if s != [] {
      var x := s[1..];
      assert s == [s[0]] + x;
      WordsCons(s[0], x);
      if IsWhitespace(s[0]) {
        var rest := TrimStart(x);
        CollapseKeepsWords(rest);
        WordsTrimStart(x);
        WordsCons(' ', CollapseWhitespace(rest));
      } else {
        CollapseKeepsWords(x);
        WordsCons(s[0], CollapseWhitespace(x));
      }
    }
  }

  /** Single-spaced text with no white space at either end. */
  predicate Clean(r: string)
  {
    SingleSpaced(r) && (r != [] ==> !IsWhitespace(r[0]) && !IsWhitespace(r[|r| - 1]))
  }

  /** Joining after a space-separated first word puts that word and a space in front. */
  lemma {:induction false} UnwordsCons(w: string, ws: seq<string>)
    requires ws != []
    ensures Unwords([w] + ws) == w + " " + Unwords(ws)
  {
    var all := [w] + ws;
    assert all[0] == w && all[1..] == ws;
    assert Spaces(|ws|)[0] == ' ' && Spaces(|ws|)[1..] == Spaces(|ws| - 1);
  }

  /** A clean text stays clean from any word character on. */
  lemma CleanSuffix(r: string, k: nat)
    requires Clean(r) && k < |r| && !IsWhitespace(r[k])
    ensures Clean(r[k..])
  {
    var y := r[k..];
    forall i | 0 <= i < |y| && IsWhitespace(y[i])
      ensures y[i] == ' '
    {
      assert y[i] == r[k + i];
    }
    forall i | 0 <= i < |y| - 1
      ensures !(y[i] == ' ' && y[i + 1] == ' ')
    {
      assert y[i] == r[k + i] && y[i + 1] == r[k + i + 1];
    }
    assert y[|y| - 1] == r[|r| - 1];
  }

  /** A clean text is its words joined by single spaces. */
  lemma {:induction false} CleanIsUnwords(r: string)
    requires Clean(r)
    ensures r == Unwords(Words(r))
    decreases |r|
  {
    if r != [] {
      var c := r[0];
      var x := r[1..];
      assert r == [c] + x;
      WordsCons(c, x);
      if x == [] {
        assert Words(x) == [] by { assert SplitWhitespace(x) == [""]; }
        assert Words(r) == [[c]];
        assert Unwords([[c]]) == [c];
      } else if IsWhitespace(x[0]) {
        assert x[0] == r[1] && r[1] == ' ';
        assert |x| >= 2;
        var y := x[1..];
        assert y == r[2..] && !IsWhitespace(r[2]);
        CleanSuffix(r, 2);
        CleanIsUnwords(y);
        assert x == [' '] + y;
        WordsCons(' ', y);
        assert y == [y[0]] + y[1..];
        WordsCons(y[0], y[1..]);
        UnwordsCons([c], Words(y));
        calc {
          Unwords(Words(r));
          Unwords([[c]] + Words(y));
          [c] + " " + Unwords(Words(y));
          [c] + " " + y;
          r;
        }
      } else {
        CleanSuffix(r, 1);
        CleanIsUnwords(x);
        var w := Words(x);
        var joined := [[c] + w[0]] + w[1..];
        assert |joined| == |w|;
        JoinWithCons(c, w, Spaces(|w| - 1));
        calc {
          Unwords(Words(r));
          Unwords(joined);
          JoinWith(joined, Spaces(|w| - 1));
          [c] + JoinWith(w, Spaces(|w| - 1));
          [c] + Unwords(w);
          r;
        }
      }
    }
  }

  // ---------------------------------------------------------------------------
  // Searching

  /** `xs.findIndex(p)` as an option: the first position whose element satisfies `p`. */
  function FirstIndex<T>(xs: seq<T>, p: T -> bool): (r: Option<nat>)
    ensures r.Some? ==> r.value < |xs| && p(xs[r.value])
    ensures r.Some? ==> forall j :: 0 <= j < r.value ==> !p(xs[j])
    ensures r.None? <==> forall j :: 0 <= j < |xs| ==> !p(xs[j])
  {
    if xs == [] then None
    else if p(xs[0]) then Some(0)
    else match FirstIndex(xs[1..], p)
      case None => None
      case Some(i) => Some(i + 1)
  }
}
