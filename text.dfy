/**
 * The string handling of `_crawl_page` and `_extract_links` (crawler.py):
 * Python's whitespace class, `str.strip()`, `re.sub(r'\s+', ' ', s)`,
 * `str.split()` and the page's word count.
 */
module Text {

  /** CPython's `str.isspace()`; the same class is `\s` in a str pattern and
      the separator of `str.split()` and `str.strip()`. */
  predicate IsSpace(c: char) {
    var n := c as int;
    (0x09 <= n <= 0x0D) || (0x1C <= n <= 0x20) || n == 0x85 || n == 0xA0
    || n == 0x1680 || (0x2000 <= n <= 0x200A) || n == 0x2028 || n == 0x2029
    || n == 0x202F || n == 0x205F || n == 0x3000
  }

  predicate NoSpace(w: string) {
    forall i | 0 <= i < |w| :: !IsSpace(w[i])
  }

  /** A token of `str.split()`: a non-empty run of non-whitespace. */
  predicate IsWord(w: string) {
    w != [] && NoSpace(w)
  }

  predicate AllWords(ws: seq<string>) {
    forall i | 0 <= i < |ws| :: IsWord(ws[i])
  }

  /** No whitespace at either end. */
  predicate Trimmed(s: string) {
    s == [] || (!IsSpace(s[0]) && !IsSpace(s[|s| - 1]))
  }

  /** The shape of a normalised page text: trimmed, every whitespace
      character is a plain space, and no two whitespace characters touch. */
  predicate IsNormal(s: string) {
    && Trimmed(s)
    && (forall i | 0 <= i < |s| :: IsSpace(s[i]) ==> s[i] == ' ')
    && (forall i | 0 <= i < |s| - 1 :: !(IsSpace(s[i]) && IsSpace(s[i + 1])))
  }

  /** `r` is `s[i..]` cut short, with only whitespace around it in `s`. */
  ghost predicate TrimAt(s: string, r: string, i: int) {
    && 0 <= i <= |s| - |r|
    && s[i..i + |r|] == r
    && (forall k | 0 <= k < i :: IsSpace(s[k]))
    && (forall k | i + |r| <= k < |s| :: IsSpace(s[k]))
  }

  /** Length of the leading run of whitespace. */
  function LeadingSpaces(s: string): (n: nat)
    ensures n <= |s|
    ensures forall k | 0 <= k < n :: IsSpace(s[k])
    ensures n == |s| || !IsSpace(s[n])
  {
    if s != [] && IsSpace(s[0]) then 1 + LeadingSpaces(s[1..]) else 0
  }

  /** Length of the trailing run of whitespace. */
  function TrailingSpaces(s: string): (n: nat)
    ensures n <= |s|
    ensures forall k | |s| - n <= k < |s| :: IsSpace(s[k])
    ensures n == |s| || !IsSpace(s[|s| - 1 - n])
  {
    if s != [] && IsSpace(s[|s| - 1]) then 1 + TrailingSpaces(s[..|s| - 1]) else 0
  }

  /** `s.lstrip()` */
  function DropSpaces(s: string): string {
    s[LeadingSpaces(s)..]
  }

  /** `s.strip()`: the part of `s` between its leading and trailing whitespace. */
  function Strip(s: string): (r: string)
    ensures Trimmed(r)
    ensures |r| <= |s|
  {
    var t := s[LeadingSpaces(s)..];
    t[..|t| - TrailingSpaces(t)]
  }

  /** What `strip()` keeps is a slice of `s` with only whitespace around it. */
  lemma StripIsTrim(s: string)
    ensures TrimAt(s, Strip(s), LeadingSpaces(s))
  {
    var i := LeadingSpaces(s);
    var t := s[i..];
    var r := Strip(s);
    assert s[i..i + |r|] == r;
    forall k | i + |r| <= k < |s| ensures IsSpace(s[k]) {
      assert s[k] == t[k - i];
    }
  }

  /** Length of the leading run of non-whitespace. */
  function WordLen(s: string): (n: nat)
    ensures n <= |s|
    ensures n == |s| || IsSpace(s[n])
  {
    if s != [] && !IsSpace(s[0]) then 1 + WordLen(s[1..]) else 0
  }

  lemma {:induction false} WordLenNoSpace(s: string)
    ensures NoSpace(s[..WordLen(s)])
  {
    if s != [] && !IsSpace(s[0]) {
      WordLenNoSpace(s[1..]);
      var n := WordLen(s);
      forall k | 0 <= k < n ensures !IsSpace(s[..n][k]) {
        if k > 0 {
          assert s[..n][k] == s[1..][..n - 1][k - 1];
        }
      }
    }
  }

  /** `s.split()` with no separator: the maximal runs of non-whitespace, in order. */
  function Words(s: string): (r: seq<string>)
    ensures |r| <= |s|
    decreases |s|
  {
    var t := DropSpaces(s);
    if t == [] then []
    else
      var n := WordLen(t);
      [t[..n]] + Words(t[n..])
  }

  /** Every token of `str.split()` is a non-empty run of non-whitespace. */
  lemma {:induction false} WordsAreWords(s: string)
    ensures AllWords(Words(s))
    decreases |s|
  {
    var t := DropSpaces(s);
    if t != [] {
      var n := WordLen(t);
      WordLenNoSpace(t);
      WordsAreWords(t[n..]);
      var ws := Words(s);
      assert ws == [t[..n]] + Words(t[n..]);
      forall i | 0 <= i < |ws| ensures IsWord(ws[i]) {
        if i > 0 {
          assert ws[i] == Words(t[n..])[i - 1];
        }
      }
    }
  }

  /** `re.sub(r'\s+', ' ', s)`: every maximal whitespace run becomes one space. */
  function CollapseRuns(s: string): (r: string)
    ensures |r| <= |s|
    ensures r == [] <==> s == []
    decreases |s|
  {
    if s == [] then []
    else if IsSpace(s[0]) then " " + CollapseRuns(DropSpaces(s))
    else [s[0]] + CollapseRuns(s[1..])
  }

  /** crawler.py:158-159: `re.sub(r'\s+', ' ', content).strip()` */
  function Normalize(s: string): (r: string)
    ensures Trimmed(r)
    ensures |r| <= |s|
  {
    Strip(CollapseRuns(s))
  }

  /** crawler.py:161: `len(content.split())` */
  function WordCount(s: string): (r: nat)
    ensures r <= |s|
    ensures r == 0 <==> forall i | 0 <= i < |s| :: IsSpace(s[i])
  {
    |Words(s)|
  }

  /** `' '.join(ws)` */
  function JoinWords(ws: seq<string>): string {
    if ws == [] then []
    else if |ws| == 1 then ws[0]
    else ws[0] + " " + JoinWords(ws[1..])
  }

  /** `s.count(c)` for a single character. */
  function Occurrences(s: string, c: char): nat {
    if s == [] then 0 else (if s[0] == c then 1 else 0) + Occurrences(s[1..], c)
  }

  // ---------------------------------------------------------------------
  // Strip

  /** Stripping a string without edge whitespace changes nothing. */
  lemma StripTrimmed(s: string)
    requires Trimmed(s)
    ensures Strip(s) == s
  {
    assert LeadingSpaces(s) == 0;
    assert s[0..] == s;
    assert TrailingSpaces(s) == 0;
  }

  /** `strip()` is the identity on its own results. */
  lemma StripIdempotent(s: string)
    ensures Strip(Strip(s)) == Strip(s)
  {
    StripTrimmed(Strip(s));
  }

  // ---------------------------------------------------------------------
  // Helpers about the recursive definitions

  lemma {:induction false} OccurrencesConcat(a: string, b: string, c: char)
    ensures Occurrences(a + b, c) == Occurrences(a, c) + Occurrences(b, c)
  {
    if a == [] {
      assert a + b == b;
    } else {
      assert (a + b)[1..] == a[1..] + b;
      OccurrencesConcat(a[1..], b, c);
    }
  }

  lemma {:induction false} OccurrencesNoSpace(w: string)
    requires NoSpace(w)
    ensures Occurrences(w, ' ') == 0
  {
    if w != [] {
      assert !IsSpace(w[0]);
      OccurrencesNoSpace(w[1..]);
    }
  }

  lemma {:induction false} WordLenOfWordThen(w: string, t: string)
    requires NoSpace(w)
    requires t == [] || IsSpace(t[0])
    ensures WordLen(w + t) == |w|
  {
    if w == [] {
      assert w + t == t;
    } else {
      assert (w + t)[0] == w[0];
      assert (w + t)[1..] == w[1..] + t;
      WordLenOfWordThen(w[1..], t);
    }
  }

  lemma {:induction false} CollapseWordThen(w: string, t: string)
    requires NoSpace(w)
    ensures CollapseRuns(w + t) == w + CollapseRuns(t)
  {
    if w == [] {
      assert w + t == t;
    } else {
      assert (w + t)[0] == w[0];
      assert (w + t)[1..] == w[1..] + t;
      CollapseWordThen(w[1..], t);
      assert w == [w[0]] + w[1..];
    }
  }

  lemma DropSpacesStart(s: string)
    requires s == [] || !IsSpace(s[0])
    ensures DropSpaces(s) == s
  {
    assert LeadingSpaces(s) == 0;
    assert s[0..] == s;
  }

  lemma DropSpacesSpaceThen(j: string)
    ensures DropSpaces(" " + j) == DropSpaces(j)
  {
    var s := " " + j;
    assert s[1..] == j;
    assert LeadingSpaces(s) == 1 + LeadingSpaces(j);
    assert s[1 + LeadingSpaces(j)..] == j[LeadingSpaces(j)..];
  }

  /** Leading whitespace does not change the tokens. */
  lemma WordsAfterSpaces(s: string)
    ensures Words(s) == Words(DropSpaces(s))
  {
    var d := DropSpaces(s);
    assert d == [] || !IsSpace(d[0]);
    DropSpacesStart(d);
  }

  lemma WordsOfWordStart(s: string)
    requires s != [] && !IsSpace(s[0])
    ensures Words(s) == [s[..WordLen(s)]] + Words(s[WordLen(s)..])
  {
    DropSpacesStart(s);
  }

  lemma JoinCons(w: string, ws: seq<string>)
    requires ws != []
    ensures JoinWords([w] + ws) == w + " " + JoinWords(ws)
  {
    assert ([w] + ws)[1..] == ws;
  }

  /** A joined list of words is empty only for no words, and otherwise starts
      with the first word's first character and ends with the last word's last. */
  lemma {:induction false} JoinEdges(ws: seq<string>)
    requires AllWords(ws)
    ensures JoinWords(ws) == [] <==> ws == []
    ensures ws != [] ==> JoinWords(ws)[0] == ws[0][0]
    ensures ws != [] ==> JoinWords(ws)[|JoinWords(ws)| - 1] == ws[|ws| - 1][|ws[|ws| - 1]| - 1]
  {
    if |ws| == 1 {
      assert IsWord(ws[0]);
    } else if |ws| > 1 {
      assert IsWord(ws[0]);
      assert AllWords(ws[1..]) by {
        forall i | 0 <= i < |ws[1..]| ensures IsWord(ws[1..][i]) {
          assert ws[1..][i] == ws[i + 1];
        }
      }
      JoinEdges(ws[1..]);
      assert ws[1..][|ws[1..]| - 1] == ws[|ws| - 1];
    }
  }

  lemma AllWordsTail(ws: seq<string>)
    requires AllWords(ws) && ws != []
    ensures IsWord(ws[0]) && AllWords(ws[1..])
  {
    assert IsWord(ws[0]);
    forall i | 0 <= i < |ws[1..]| ensures IsWord(ws[1..][i]) {
      assert ws[1..][i] == ws[i + 1];
    }
  }

  // ---------------------------------------------------------------------
  // The joined form is normal, and split undoes join

  /** A word, a space and a normal non-empty text starting with a word
      character make a normal text. */
  lemma NormalCons(w: string, j: string)
    requires IsWord(w) && IsNormal(j) && j != []
    ensures IsNormal(w + " " + j)
  {
    var s := w + " " + j;
    assert forall i | 0 <= i < |s| :: s[i] == (if i < |w| then w[i] else if i == |w| then ' ' else j[i - |w| - 1]);
    assert s[0] == w[0] && s[|s| - 1] == j[|j| - 1];
    assert forall i | 0 <= i < |s| - 1 :: !(IsSpace(s[i]) && IsSpace(s[i + 1])) by {
      forall i | 0 <= i < |s| - 1 ensures !(IsSpace(s[i]) && IsSpace(s[i + 1])) {
        if i + 1 < |w| {
          assert !IsSpace(s[i]);
        } else if i + 1 == |w| {
          assert !IsSpace(s[i]);
        } else if i == |w| {
          assert s[i + 1] == j[0];
        } else {
          assert s[i] == j[i - |w| - 1] && s[i + 1] == j[i - |w|];
        }
      }
    }
  }

  /** `' '.join` of words gives the normal shape, with one space fewer than words. */
  lemma {:induction false} JoinWordsNormal(ws: seq<string>)
    requires AllWords(ws)
    ensures IsNormal(JoinWords(ws))
    ensures ws != [] ==> Occurrences(JoinWords(ws), ' ') + 1 == |ws|
  {
    if |ws| == 1 {
      assert IsWord(ws[0]);
      OccurrencesNoSpace(ws[0]);
    } else if |ws| > 1 {
      AllWordsTail(ws);
      var w, j := ws[0], JoinWords(ws[1..]);
      JoinWordsNormal(ws[1..]);
      JoinEdges(ws[1..]);
      assert JoinWords(ws) == w + " " + j;
      NormalCons(w, j);
      OccurrencesConcat(w + " ", j, ' ');
      OccurrencesConcat(w, " ", ' ');
      OccurrencesNoSpace(w);
    }
  }

  /** A word followed by whitespace (or nothing) is split off as the first token. */
  lemma WordsOfWordThen(w: string, t: string)
    requires IsWord(w)
    requires t == [] || IsSpace(t[0])
    ensures Words(w + t) == [w] + Words(t)
  {
    var s := w + t;
    assert s[0] == w[0];
    WordLenOfWordThen(w, t);
    WordsOfWordStart(s);
    assert s[..|w|] == w;
    assert s[|w|..] == t;
  }

  lemma WordsOfSpaceThen(j: string)
    ensures Words(" " + j) == Words(j)
  {
    DropSpacesSpaceThen(j);
    WordsAfterSpaces(" " + j);
    WordsAfterSpaces(j);
  }

  lemma WordsOfWordSpace(w: string, j: string)
    requires IsWord(w)
    ensures Words(w + " " + j) == [w] + Words(j)
  {
    assert w + " " + j == w + (" " + j);
    WordsOfWordThen(w, " " + j);
    WordsOfSpaceThen(j);
  }

  /** Splitting a joined list of words gives the words back. */
  lemma {:induction false} WordsOfJoin(ws: seq<string>)
    requires AllWords(ws)
    ensures Words(JoinWords(ws)) == ws
  {
    if ws == [] {
      assert LeadingSpaces([]) == 0;
    } else if |ws| == 1 {
      assert IsWord(ws[0]);
      WordsOfWordThen(ws[0], []);
      assert ws[0] + [] == ws[0];
      assert LeadingSpaces([]) == 0;
    } else {
      AllWordsTail(ws);
      WordsOfJoin(ws[1..]);
      WordsOfWordSpace(ws[0], JoinWords(ws[1..]));
      assert ws == [ws[0]] + ws[1..];
    }
  }

  // ---------------------------------------------------------------------
  // re.sub(r'\s+', ' ', s): the words joined by single spaces, plus at most
  // one space at each end

  /** The single space `re.sub(r'\s+', ' ', s)` leaves at the end of `s`, if any. */
  ghost function TrailOf(s: string): string {
    if DropSpaces(s) != [] && IsSpace(s[|s| - 1]) then " " else []
  }

  /** What `re.sub(r'\s+', ' ', s)` leaves: the words of `s` joined by single
      spaces, with one space in front if `s` starts with whitespace and one
      behind if it has a word and ends with whitespace. */
  ghost function Collapsed(s: string): string {
    var body := JoinWords(Words(s)) + TrailOf(s);
    if s != [] && IsSpace(s[0]) then " " + body else body
  }

  /** Concatenation regrouped from the right to the left. */
  lemma Regroup(a: string, b: string, c: string, d: string)
    ensures a + (b + (c + d)) == a + b + c + d
  {
  }

  lemma CollapseSpaceCase(s: string)
    requires s != [] && IsSpace(s[0])
    requires CollapseRuns(DropSpaces(s)) == Collapsed(DropSpaces(s))
    ensures CollapseRuns(s) == Collapsed(s)
  {
    var d := DropSpaces(s);
    assert CollapseRuns(s) == " " + CollapseRuns(d);
    CollapsedAfterSpaces(s);
  }

  /** Leading whitespace collapses to the one space in front of what follows it. */
  lemma CollapsedAfterSpaces(s: string)
    requires s != [] && IsSpace(s[0])
    ensures Collapsed(s) == " " + Collapsed(DropSpaces(s))
  {
    var d := DropSpaces(s);
    WordsAfterSpaces(s);
    TrailAfterSpaces(s);
    assert d == [] || !IsSpace(d[0]);
  }

  lemma TrailAfterSpaces(s: string)
    ensures TrailOf(DropSpaces(s)) == TrailOf(s)
  {
    var d := DropSpaces(s);
    DropSpacesStart(d);
    if d != [] {
      assert d[|d| - 1] == s[|s| - 1];
    }
  }

  lemma CollapseLastWordCase(s: string)
    requires s != [] && !IsSpace(s[0]) && WordLen(s) == |s|
    ensures CollapseRuns(s) == Collapsed(s)
  {
    assert s[..|s|] == s && s[|s|..] == [];
    WordLenNoSpace(s);
    assert s + [] == s;
    WordsOfWordStart(s);
    CollapseWordThen(s, []);
    assert LeadingSpaces([]) == 0;
    assert Words([]) == [];
    assert Words(s) == [s];
    assert TrailOf(s) == [];
  }

  lemma CollapseWordThenSpaces(s: string, w: string)
    requires s != [] && !IsSpace(s[0]) && IsSpace(s[|s| - 1])
    requires Words(s) == [w]
    requires CollapseRuns(s) == w + (" " + ([] + []))
    ensures CollapseRuns(s) == Collapsed(s)
  {
    assert TrailOf(s) == " ";
    assert " " + ([] + []) == " ";
  }

  lemma CollapseWordThenWords(s: string, w: string, wr: seq<string>, tr: string)
    requires s != [] && !IsSpace(s[0])
    requires wr != [] && Words(s) == [w] + wr && TrailOf(s) == tr
    requires CollapseRuns(s) == w + (" " + (JoinWords(wr) + tr))
    ensures CollapseRuns(s) == Collapsed(s)
  {
    JoinCons(w, wr);
    Regroup(w, " ", JoinWords(wr), tr);
  }

  lemma CollapseAtWordEnd(s: string)
    ensures CollapseRuns(s) == s[..WordLen(s)] + CollapseRuns(s[WordLen(s)..])
  {
    var n := WordLen(s);
    assert s == s[..n] + s[n..];
    WordLenNoSpace(s);
    CollapseWordThen(s[..n], s[n..]);
  }

  lemma CollapsedSpaceStart(r: string)
    requires r != [] && IsSpace(r[0])
    ensures Collapsed(r) == " " + (JoinWords(Words(r)) + TrailOf(r))
  {
  }

  lemma WordCaseCollapse(s: string)
    requires s != [] && !IsSpace(s[0]) && WordLen(s) < |s|
    requires CollapseRuns(s[WordLen(s)..]) == Collapsed(s[WordLen(s)..])
    ensures var rest := s[WordLen(s)..];
      CollapseRuns(s) == s[..WordLen(s)] + (" " + (JoinWords(Words(rest)) + TrailOf(rest)))
  {
    var n := WordLen(s);
    assert s[n..][0] == s[n];
    CollapsedSpaceStart(s[n..]);
    CollapseAtWordEnd(s);
  }

  lemma WordCaseOnlySpaces(s: string)
    requires s != [] && WordLen(s) < |s| && Words(s[WordLen(s)..]) == []
    ensures IsSpace(s[|s| - 1]) && TrailOf(s[WordLen(s)..]) == []
  {
    var rest := s[WordLen(s)..];
    assert LeadingSpaces(rest) == |rest|;
    assert rest[|rest| - 1] == s[|s| - 1];
  }

  lemma WordCaseTrail(s: string)
    requires s != [] && !IsSpace(s[0]) && WordLen(s) < |s| && Words(s[WordLen(s)..]) != []
    ensures TrailOf(s) == TrailOf(s[WordLen(s)..])
  {
    var rest := s[WordLen(s)..];
    WordsNonEmpty(rest);
    assert rest[|rest| - 1] == s[|s| - 1];
    assert LeadingSpaces(s) == 0;
  }

  /** There are tokens exactly when something is left after the leading whitespace. */
  lemma WordsNonEmpty(s: string)
    ensures Words(s) != [] <==> DropSpaces(s) != []
  {
  }

  lemma CollapseWordCase(s: string)
    requires s != [] && !IsSpace(s[0]) && WordLen(s) < |s|
    requires CollapseRuns(s[WordLen(s)..]) == Collapsed(s[WordLen(s)..])
    ensures CollapseRuns(s) == Collapsed(s)
  {
    var n := WordLen(s);
    var w, rest := s[..n], s[n..];
    WordsOfWordStart(s);
    WordCaseCollapse(s);
    if Words(rest) == [] {
      WordCaseOnlySpaces(s);
      CollapseWordThenSpaces(s, w);
    } else {
      WordCaseTrail(s);
      CollapseWordThenWords(s, w, Words(rest), TrailOf(rest));
    }
  }

  lemma {:induction false} CollapseShape(s: string)
    ensures CollapseRuns(s) == Collapsed(s)
    decreases |s|
  {
    if s == [] {
      assert LeadingSpaces(s) == 0;
      assert Collapsed(s) == [];
    } else if IsSpace(s[0]) {
      CollapseShape(DropSpaces(s));
      CollapseSpaceCase(s);
    } else if WordLen(s) == |s| {
      CollapseLastWordCase(s);
    } else {
      CollapseShape(s[WordLen(s)..]);
      CollapseWordCase(s);
    }
  }

  lemma LeadingSpacesPrefix(lead: string, d: string)
    requires lead == [] || lead == " "
    requires d == [] || !IsSpace(d[0])
    ensures LeadingSpaces(lead + d) == |lead|
  {
    if lead == [] {
      assert lead + d == d;
    } else {
      assert (lead + d)[1..] == d;
    }
  }

  lemma TrailingSpacesSuffix(j: string, trail: string)
    requires trail == [] || trail == " "
    requires j == [] || !IsSpace(j[|j| - 1])
    ensures TrailingSpaces(j + trail) == |trail|
  {
    if trail == [] {
      assert j + trail == j;
    } else {
      var d := j + trail;
      assert d[|d| - 1] == ' ';
      assert d[..|d| - 1] == j;
      assert TrailingSpaces(d) == 1 + TrailingSpaces(j);
    }
  }

  /** Stripping removes at most one space at each end of a string without
      edge whitespace. */
  lemma StripEdges(front: string, j: string, trail: string)
    requires front == [] || front == " "
    requires trail == [] || (trail == " " && j != [])
    requires j == [] || (!IsSpace(j[0]) && !IsSpace(j[|j| - 1]))
    ensures Strip(front + (j + trail)) == j
  {
    var d := j + trail;
    assert d == [] || !IsSpace(d[0]) by {
      if j != [] {
        assert d[0] == j[0];
      }
    }
    LeadingSpacesPrefix(front, d);
    assert (front + d)[|front|..] == d;
    TrailingSpacesSuffix(j, trail);
    assert d[..|d| - |trail|] == j;
  }

  /** Stripping removes at most one space at each end of a joined list of words. */
  lemma StripJoined(ws: seq<string>, lead: bool, trail: string)
    requires AllWords(ws)
    requires trail == [] || (trail == " " && ws != [])
    ensures Strip(if lead then " " + (JoinWords(ws) + trail) else JoinWords(ws) + trail) == JoinWords(ws)
  {
    var j := JoinWords(ws);
    assert j == [] || (!IsSpace(j[0]) && !IsSpace(j[|j| - 1])) by {
      JoinEdges(ws);
      JoinWordsNormal(ws);
    }
    assert j == [] ==> ws == [] by {
      JoinEdges(ws);
    }
    var front: string := if lead then " " else [];
    StripEdges(front, j, trail);
    if !lead {
      assert front + (j + trail) == j + trail;
    }
  }

  // ---------------------------------------------------------------------
  // The properties of crawler.py:159 and crawler.py:161

  /** `re.sub(r'\s+', ' ', s).strip()` equals `' '.join(s.split())`. */
  lemma NormalizeIsJoinedWords(s: string)
    ensures Normalize(s) == JoinWords(Words(s))
  {
    var ws := Words(s);
    WordsAreWords(s);
    CollapseShape(s);
    StripJoined(ws, s != [] && IsSpace(s[0]), TrailOf(s));
  }

  /** Normalised text has no edge whitespace, only plain single spaces. */
  lemma NormalizeIsNormal(s: string)
    ensures IsNormal(Normalize(s))
  {
    WordsAreWords(s);
    NormalizeIsJoinedWords(s);
    JoinWordsNormal(Words(s));
  }

  /** Normalising twice gives the same text as normalising once. */
  lemma NormalizeIdempotent(s: string)
    ensures Normalize(Normalize(s)) == Normalize(s)
  {
    WordsAreWords(s);
    NormalizeIsJoinedWords(s);
    WordsOfJoin(Words(s));
    NormalizeIsJoinedWords(Normalize(s));
  }

  /** Normalising keeps the tokens, so the word count is the same before and after. */
  lemma NormalizeKeepsWords(s: string)
    ensures Words(Normalize(s)) == Words(s)
  {
    WordsAreWords(s);
    NormalizeIsJoinedWords(s);
    WordsOfJoin(Words(s));
  }

  /** The stored word count is the number of space-separated tokens of the
      stored content: 0 for empty content, one more than its spaces otherwise. */
  lemma WordCountIsTokenCount(s: string)
    ensures var c := Normalize(s);
      WordCount(c) == if c == [] then 0 else Occurrences(c, ' ') + 1
  {
    WordsAreWords(s);
    NormalizeIsJoinedWords(s);
    WordsOfJoin(Words(s));
    JoinWordsNormal(Words(s));
    JoinEdges(Words(s));
  }
}
