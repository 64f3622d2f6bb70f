/** Accessible names as `perception/normalize.py` cleans them. */
module Names {
  import opened Outcomes

  const ZERO_WIDTH_SPACE: char := '\U{200B}'

  /** What Python's `str.strip` and `\s` take for whitespace. */
  predicate IsSpace(c: char) {
    || c == ' ' || '\t' <= c <= '\r' || '\U{001C}' <= c <= '\U{001F}' || c == '\U{0085}' || c == '\U{00A0}'
    || c == '\U{1680}' || '\U{2000}' <= c <= '\U{200A}' || c == '\U{2028}' || c == '\U{2029}' || c == '\U{202F}'
    || c == '\U{205F}' || c == '\U{3000}'
  }

  predicate Blank(text: string) {
    forall i :: 0 <= i < |text| ==> IsSpace(text[i])
  }

  predicate IsSeparator(c: char) {
    c == ':' || c == '*'
  }

  function Leading(s: string, drop: char -> bool): (k: nat)
    ensures k <= |s| && forall i :: 0 <= i < k ==> drop(s[i])
    ensures k < |s| ==> !drop(s[k])
  {
    if s == [] || !drop(s[0]) then 0 else 1 + Leading(s[1..], drop)
  }

  function DropLeading(s: string, drop: char -> bool): string {
    s[Leading(s, drop)..]
  }

  function DropTrailing(s: string, drop: char -> bool): (r: string)
    ensures r <= s && forall i :: |r| <= i < |s| ==> drop(s[i])
    ensures r == [] || !drop(r[|r| - 1])
  {
    if s == [] || !drop(s[|s| - 1]) then s else DropTrailing(s[..|s| - 1], drop)
  }

  function Strip(s: string): string {
    DropTrailing(DropLeading(s, IsSpace), IsSpace)
  }

  /** Every run of whitespace becomes one blank. */
  function Collapse(s: string): string
    decreases |s|
  {
    if s == [] then ""
    else if IsSpace(s[0]) then " " + Collapse(DropLeading(s, IsSpace))
    else [s[0]] + Collapse(s[1..])
  }

  function Without(s: string, c: char): string {
    if s == [] then "" else (if s[0] == c then "" else [s[0]]) + Without(s[1..], c)
  }

  function Replaced(s: string, c: char, substitute: char): (r: string)
    ensures c !in s ==> r == s
  {
    if s == [] then "" else [if s[0] == c then substitute else s[0]] + Replaced(s[1..], c, substitute)
  }

  function NormalizeName(raw: Option<string>): Option<string> {
    if raw.None? then None
    else
      var spaced := Without(Replaced(raw.value, '\U{00A0}', ' '), ZERO_WIDTH_SPACE);
      var cleaned := Strip(DropTrailing(Strip(Collapse(spaced)), IsSeparator));
      if cleaned == "" then None else Some(cleaned)
  }

  // ---------------------------------------------------------------- what a cleaned name looks like

  ghost predicate Collapsed(s: string) {
    && (forall i :: 0 <= i < |s| ==> s[i] != ZERO_WIDTH_SPACE && (IsSpace(s[i]) ==> s[i] == ' '))
    && (forall i, j :: 0 <= i < j < |s| && j == i + 1 ==> !(IsSpace(s[i]) && IsSpace(s[j])))
  }

  predicate Stripped(s: string) {
    s != [] ==> !IsSpace(s[0]) && !IsSpace(s[|s| - 1])
  }

  lemma {:induction false} CollapseCollapses(s: string)
    requires ZERO_WIDTH_SPACE !in s
    ensures Collapsed(Collapse(s))
    ensures s != [] ==> Collapse(s) != [] && (IsSpace(Collapse(s)[0]) <==> IsSpace(s[0]))
    decreases |s|
  {
    assert IsSpace(' ');
    hide IsSpace;
    if s != [] {
      var rest := if IsSpace(s[0]) then DropLeading(s, IsSpace) else s[1..];
      CollapseCollapses(rest);
      assert Collapse(s)[1..] == Collapse(rest);
      assert forall i | 1 <= i < |Collapse(s)| :: Collapse(s)[i] == Collapse(rest)[i - 1];
    }
  }

  lemma {:induction false} CollapsedStaysPut(s: string)
    requires Collapsed(s)
    ensures Collapse(s) == s
  {
    hide IsSpace;
    if s != [] {
      assert forall i | 0 <= i < |s| - 1 :: s[1..][i] == s[i + 1];
      CollapsedStaysPut(s[1..]);
      assert s == [s[0]] + s[1..];
      if IsSpace(s[0]) {
        assert DropLeading(s, IsSpace) == s[1..];
      }
    }
  }

  lemma {:induction false} WithoutRemoves(s: string, c: char)
    ensures c !in Without(s, c)
    ensures c !in s ==> Without(s, c) == s
  {
    if s != [] {
      WithoutRemoves(s[1..], c);
      assert s == [s[0]] + s[1..];
    }
  }

  lemma StripStrips(s: string)
    ensures Stripped(Strip(s))
    ensures Collapsed(s) ==> Collapsed(Strip(s))
    ensures Stripped(s) ==> Strip(s) == s
  {
    hide IsSpace;
    var k := Leading(s, IsSpace);
    var r := Strip(s);
    assert forall i | 0 <= i < |r| :: r[i] == s[k + i];
  }

  /** Whatever name comes out holds no surplus whitespace. */
  lemma CleanedNamesAreClean(raw: string)
    requires NormalizeName(Some(raw)).Some?
    ensures var name := NormalizeName(Some(raw)).value; name != [] && Collapsed(name) && Stripped(name)
  {
    hide IsSpace, Collapse, Strip;
    var spaced := Without(Replaced(raw, '\U{00A0}', ' '), ZERO_WIDTH_SPACE);
    WithoutRemoves(Replaced(raw, '\U{00A0}', ' '), ZERO_WIDTH_SPACE);
    CollapseCollapses(spaced);
    StripStrips(Collapse(spaced));
    var stripped := Strip(Collapse(spaced));
    var cut := DropTrailing(stripped, IsSeparator);
    assert forall i | 0 <= i < |cut| :: cut[i] == stripped[i];
    StripStrips(cut);
  }

  /** On a clean text only trailing separators are left to remove. */
  lemma CleanNamesLoseOnlySeparators(name: string)
    requires name != [] && Collapsed(name) && Stripped(name)
    ensures NormalizeName(Some(name)) ==
              var cleaned := Strip(DropTrailing(name, IsSeparator)); if cleaned == "" then None else Some(cleaned)
  {
    assert IsSpace('\U{00A0}');
    hide IsSpace, Strip, Collapse;
    assert Replaced(name, '\U{00A0}', ' ') == name;
    WithoutRemoves(name, ZERO_WIDTH_SPACE);
    CollapsedStaysPut(name);
    StripStrips(name);
  }

  /** The names that cleaning leaves alone. */
  lemma FixedPointsOfCleaning(name: string)
    ensures NormalizeName(Some(name)) == Some(name) <==>
              name != [] && Collapsed(name) && Stripped(name) && !IsSeparator(name[|name| - 1])
  {
    hide IsSpace;
    if NormalizeName(Some(name)) == Some(name) {
      CleanedNamesAreClean(name);
      CleanNamesLoseOnlySeparators(name);
    } else if name != [] && Collapsed(name) && Stripped(name) {
      CleanNamesLoseOnlySeparators(name);
      StripStrips(name);
    }
  }

  /** Cleaning twice is cleaning once exactly when the first pass did not leave a
      separator behind, as it does when a blank stands between two of them. */
  lemma CleaningTwice(raw: Option<string>)
    ensures var once := NormalizeName(raw);
            NormalizeName(once) == once <==> (once.Some? ==> !IsSeparator(once.value[|once.value| - 1]))
  {
    hide IsSpace;
    var once := NormalizeName(raw);
    if once.Some? {
      CleanedNamesAreClean(raw.value);
      FixedPointsOfCleaning(once.value);
    }
  }

  /** Every cleaned label has such a raw form: "Name: *" becomes "Name:" and only
      then "Name". */
  lemma SeparatorsComeOffInRounds(text: string)
    requires NormalizeName(Some(text)) == Some(text)
    ensures NormalizeName(Some(text + ": *")) == Some(text + ":")
    ensures NormalizeName(Some(text + ":")) == Some(text)
  {
    var one, two := text + [':'], text + [':'] + [' '];
    var three := two + ['*'];
    SeparatorsAreClean(text);
    hide IsSpace, Strip, DropTrailing, NormalizeName, Collapsed, Stripped;
    assert text + ":" == one && text + ": *" == three;
    CleanNamesLoseOnlySeparators(three);
    CleanNamesLoseOnlySeparators(one);
    DropOneSeparator(two, '*');
    DropOneSeparator(text, ':');
    StripStrips(text);
    StripOneBlank(one);
    assert one + " " == two;
  }

  lemma SeparatorsAreClean(text: string)
    requires NormalizeName(Some(text)) == Some(text)
    ensures !IsSeparator(text[|text| - 1]) && Stripped(text)
    ensures Collapsed(text + [':']) && Stripped(text + [':'])
    ensures Collapsed(text + [':'] + [' '] + ['*']) && Stripped(text + [':'] + [' '] + ['*'])
  {
    assert IsSpace(' ') && !IsSpace(':') && !IsSpace('*');
    hide IsSpace, NormalizeName;
    FixedPointsOfCleaning(text);
    Appended(text, ':');
    Appended(text + [':'], ' ');
    Appended(text + [':'] + [' '], '*');
  }

  lemma Appended(s: string, c: char)
    requires Collapsed(s) && s != [] && c != ZERO_WIDTH_SPACE
    requires IsSpace(c) ==> c == ' ' && !IsSpace(s[|s| - 1])
    ensures Collapsed(s + [c])
  {
    hide IsSpace;
  }

  lemma DropOneSeparator(s: string, c: char)
    requires s != [] && !IsSeparator(s[|s| - 1]) && IsSeparator(c)
    ensures DropTrailing(s + [c], IsSeparator) == s
  {
    assert (s + [c])[..|s|] == s;
  }

  lemma StripOneBlank(s: string)
    requires s != [] && Stripped(s)
    ensures Strip(s + " ") == s
  {
    assert IsSpace(' ');
    hide IsSpace;
    assert (s + " ")[..|s|] == s;
  }

  // ---------------------------------------------------------------- what cleaning keeps

  predicate NoSpace(c: char) {
    !IsSpace(c)
  }

  /** The stretches of text between whitespace. */
  function Words(s: string): seq<string>
    decreases |s|
  {
    if s == [] then []
    else if IsSpace(s[0]) then Words(s[1..])
    else
      var n := Leading(s, NoSpace);
      [s[..n]] + Words(s[n..])
  }

  function Spaced(words: seq<string>): string {
    if words == [] then ""
    else if |words| == 1 then words[0]
    else words[0] + " " + Spaced(words[1..])
  }

  /** `name` is `text` without the separators at its end and the blanks before those. */
  ghost predicate IsTrimmed(text: string, name: string, blanks: string, separators: string) {
    && text == name + blanks + separators
    && (forall c | c in blanks :: IsSpace(c)) && (forall c | c in separators :: IsSeparator(c))
    && (name != "" ==> !IsSpace(name[|name| - 1]))
    && (name + blanks != "" ==> !IsSeparator((name + blanks)[|name + blanks| - 1]))
  }

  /** A cleaned name is the words of the raw one, a blank between any two, without the
      separators at the end. */
  lemma CleaningKeepsTheWords(raw: string) returns (blanks: string, separators: string)
    ensures IsTrimmed(Spaced(Words(Without(raw, ZERO_WIDTH_SPACE))), NormalizeName(Some(raw)).GetOr(""), blanks,
                      separators)
  {
    hide Words, Collapse, Spaced, Replaced, Without, Strip, IsSpace;
    var spaced := Without(Replaced(raw, '\U{00A0}', ' '), ZERO_WIDTH_SPACE);
    WordsByAnyBlank(raw);
    StripLeavesTheWords(spaced);
    StripStrips(Collapse(spaced));
    blanks, separators := Trimmed(Strip(Collapse(spaced)));
  }

  lemma Trimmed(text: string) returns (blanks: string, separators: string)
    requires Stripped(text)
    ensures IsTrimmed(text, Strip(DropTrailing(text, IsSeparator)), blanks, separators)
  {
    hide IsSpace, IsSeparator;
    var cut := DropTrailing(text, IsSeparator);
    if cut != [] { assert cut[0] == text[0]; }
    LeadingIs(cut, IsSpace, 0);
    assert cut[0..] == cut;
    var name := Strip(cut);
    blanks, separators := cut[|name|..], text[|cut|..];
    assert name + blanks == cut;
  }

  lemma LeadingIs(s: string, drop: char -> bool, k: nat)
    requires k <= |s| && (forall i | 0 <= i < k :: drop(s[i])) && (k < |s| ==> !drop(s[k]))
    ensures Leading(s, drop) == k
  {
  }

  lemma {:induction false} DropTrailingPast(a: string, b: string, drop: char -> bool)
    requires exists i :: 0 <= i < |b| && !drop(b[i])
    ensures DropTrailing(a + b, drop) == a + DropTrailing(b, drop)
  {
    var n := |b| - 1;
    assert (a + b)[|a + b| - 1] == b[n] && (a + b)[..|a + b| - 1] == a + b[..n];
    if drop(b[n]) {
      var i :| 0 <= i < |b| && !drop(b[i]);
      assert b[..n][i] == b[i];
      DropTrailingPast(a, b[..n], drop);
    }
  }

  lemma {:induction false} CollapseRun(s: string, n: nat)
    requires n <= |s| && forall i | 0 <= i < n :: !IsSpace(s[i])
    ensures Collapse(s) == s[..n] + Collapse(s[n..])
  {
    hide IsSpace;
    if n == 0 {
      assert s[0..] == s;
    } else {
      CollapseRun(s[1..], n - 1);
      assert s[1..][n - 1..] == s[n..] && s[..n] == [s[0]] + s[1..][..n - 1];
    }
  }

  lemma {:induction false} WordsSkip(s: string)
    ensures Words(DropLeading(s, IsSpace)) == Words(s)
  {
    hide IsSpace;
    if s != [] && IsSpace(s[0]) {
      WordsSkip(s[1..]);
      assert DropLeading(s, IsSpace) == DropLeading(s[1..], IsSpace);
    } else {
      assert s[0..] == s;
    }
  }

  lemma {:induction false} WordsOfACollapsed(s: string)
    requires s == [] || !IsSpace(s[0])
    ensures DropTrailing(Collapse(s), IsSpace) == Spaced(Words(s))
    ensures s != [] ==> Words(s) != [] && Collapse(s) != [] && !IsSpace(Collapse(s)[0])
    decreases |s|
  {
    hide IsSpace;
    if s != [] {
      var n := Leading(s, NoSpace);
      var run, rest := s[..n], s[n..];
      CollapseRun(s, n);
      assert Words(s) == [run] + Words(rest) && ([run] + Words(rest))[1..] == Words(rest);
      if rest == [] {
        assert run + "" == run;
      } else {
        var t := DropLeading(rest, IsSpace);
        WordsSkip(rest);
        WordsOfACollapsed(t);
        assert Collapse(s) == run + (" " + Collapse(t));
        ASpaceIsBlank();
        BlankAfter(run, Collapse(t), " ", IsSpace);
      }
    }
  }

  lemma BlankAfter(run: string, more: string, blank: string, drop: char -> bool)
    requires run != [] && !drop(run[|run| - 1]) && (more != [] ==> !drop(more[0]))
    requires |blank| == 1 && drop(blank[0])
    ensures more == [] ==> DropTrailing(run + (blank + more), drop) == run
    ensures more != [] ==> DropTrailing(run + (blank + more), drop) == run + blank + DropTrailing(more, drop)
  {
    hide DropTrailing;
    if more == [] {
      assert run + (blank + more) == run + blank;
      OneDropped(run, blank, drop);
    } else {
      SomeKept(run, blank, more, drop);
    }
  }

  lemma SomeKept(run: string, blank: string, more: string, drop: char -> bool)
    requires more != [] && !drop(more[0])
    ensures DropTrailing(run + (blank + more), drop) == run + blank + DropTrailing(more, drop)
  {
    hide DropTrailing;
    assert run + (blank + more) == run + blank + more;
    DropTrailingPast(run + blank, more, drop);
  }

  lemma OneDropped(run: string, blank: string, drop: char -> bool)
    requires run != [] && !drop(run[|run| - 1]) && |blank| == 1 && drop(blank[0])
    ensures DropTrailing(run + blank, drop) == run
  {
    var all := run + blank;
    assert all[..|all| - 1] == run && all[|all| - 1] == blank[0];
    assert DropTrailing(run, drop) == run;
  }

  lemma StripLeavesTheWords(s: string)
    ensures Strip(Collapse(s)) == Spaced(Words(s))
  {
    var t := DropLeading(s, IsSpace);
    ASpaceIsBlank();
    hide IsSpace;
    WordsSkip(s);
    WordsOfACollapsed(t);
    if s != [] && IsSpace(s[0]) {
      OneBlankLess(" ", Collapse(t));
    } else {
      assert s[0..] == s && Collapse(t)[0..] == Collapse(t);
    }
  }

  lemma ASpaceIsBlank()
    ensures IsSpace(" "[0])
  {
  }

  lemma OneBlankLess(blank: string, more: string)
    requires |blank| == 1 && IsSpace(blank[0]) && (more != [] ==> !IsSpace(more[0]))
    ensures DropLeading(blank + more, IsSpace) == more
  {
    hide IsSpace;
    LeadingIs(blank + more, IsSpace, 1);
    assert (blank + more)[1..] == more;
  }

  lemma {:induction false} ReplacedAt(s: string, c: char, d: char)
    ensures |Replaced(s, c, d)| == |s|
    ensures forall i | 0 <= i < |s| :: Replaced(s, c, d)[i] == if s[i] == c then d else s[i]
  {
    if s != [] { ReplacedAt(s[1..], c, d); }
  }

  lemma {:induction false} SameWords(s: string, nbsp: char, blank: char)
    requires IsSpace(nbsp) && IsSpace(blank)
    ensures Words(Replaced(s, nbsp, blank)) == Words(s)
    decreases |s|
  {
    hide IsSpace, Replaced;
    if s == [] {
      ReplacedAt(s, nbsp, blank);
      assert Replaced(s, nbsp, blank) == s;
    } else {
      var r := Replaced(s, nbsp, blank);
      var n := if IsSpace(s[0]) then 1 else Leading(s, NoSpace);
      ReplacedAt(s, nbsp, blank);
      ReplacedAt(s[n..], nbsp, blank);
      assert r[n..] == Replaced(s[n..], nbsp, blank);
      SameWords(s[n..], nbsp, blank);
      if !IsSpace(s[0]) {
        LeadingIs(r, NoSpace, n);
        assert r[..n] == s[..n];
      }
    }
  }

  /** For telling words apart every blank is as good as another. */
  lemma {:induction false} WordsByAnyBlank(raw: string)
    ensures Words(Without(Replaced(raw, '\U{00A0}', ' '), ZERO_WIDTH_SPACE)) == Words(Without(raw, ZERO_WIDTH_SPACE))
  {
    var nbsp, blank, zero := '\U{00A0}', ' ', ZERO_WIDTH_SPACE;
    assert IsSpace(nbsp) && IsSpace(blank) && nbsp != zero && blank != zero;
    hide Words, Replaced, Without, IsSpace;
    ReplacedThenWithout(raw, nbsp, blank, zero);
    SameWords(Without(raw, zero), nbsp, blank);
  }

  lemma {:induction false} ReplacedThenWithout(raw: string, nbsp: char, blank: char, zero: char)
    requires nbsp != zero && blank != zero
    ensures Without(Replaced(raw, nbsp, blank), zero) == Replaced(Without(raw, zero), nbsp, blank)
  {
    if raw == [] {
      NothingLeft(nbsp, blank, zero);
    } else {
      var x, rest := raw[0], raw[1..];
      var y := if x == nbsp then blank else x;
      ReplacedThenWithout(rest, nbsp, blank, zero);
      hide Without, Replaced;
      var kept := Without(rest, zero);
      assert raw == [x] + rest;
      OneByOne(x, rest, zero, nbsp, blank);
      OneByOne(y, Replaced(rest, nbsp, blank), zero, nbsp, blank);
      OneByOne(x, kept, zero, nbsp, blank);
      assert "" + kept == kept && "" + Replaced(kept, nbsp, blank) == Replaced(kept, nbsp, blank);
    }
  }

  lemma NothingLeft(nbsp: char, blank: char, zero: char)
    ensures Without(Replaced("", nbsp, blank), zero) == Replaced(Without("", zero), nbsp, blank)
  {
  }

  lemma OneByOne(x: char, rest: string, zero: char, nbsp: char, blank: char)
    ensures Without([x] + rest, zero) == (if x == zero then "" else [x]) + Without(rest, zero)
    ensures Replaced([x] + rest, nbsp, blank) == [if x == nbsp then blank else x] + Replaced(rest, nbsp, blank)
  {
    assert ([x] + rest)[1..] == rest;
  }
}
