/** `evals/scorers.py`: the key under which replays of the same inputs are compared, and
    the comparison. */
module Keys {
  import opened Outcomes

  /** The inputs of a run: values of any kind, each of which reads as some text. */
  type Inputs<V> = map<string, V>

  type Texts = Inputs<string>

  /** The inputs as they read. */
  function AsTexts<V>(inputs: Inputs<V>, str: V -> string): (texts: Texts)
    ensures texts.Keys == inputs.Keys && forall name | name in inputs :: texts[name] == str(inputs[name])
  {
    map name | name in inputs :: str(inputs[name])
  }

  // ---------------------------------------------------------------- escaping

  function ReplaceChar(s: string, c: char, substitute: string): string {
    if s == "" then "" else (if s[0] == c then substitute else [s[0]]) + ReplaceChar(s[1..], c, substitute)
  }

  /** Three replacements in a row, the backslash first. */
  function Escape(text: string): string {
    ReplaceChar(ReplaceChar(ReplaceChar(text, '\\', "\\\\"), ',', "\\,"), '=', "\\=")
  }

  predicate IsSpecial(c: char) {
    c == '\\' || c == ',' || c == '='
  }

  /** What they amount to, character by character. */
  function EscapeEach(text: string): string {
    if text == "" then "" else (if IsSpecial(text[0]) then ['\\', text[0]] else [text[0]]) + EscapeEach(text[1..])
  }

  lemma {:induction false} ReplaceInTurn(a: string, b: string, c: char, substitute: string)
    ensures ReplaceChar(a + b, c, substitute) == ReplaceChar(a, c, substitute) + ReplaceChar(b, c, substitute)
  {
    if a == "" {
      assert a + b == b;
    } else {
      assert (a + b)[1..] == a[1..] + b;
      ReplaceInTurn(a[1..], b, c, substitute);
    }
  }

  lemma {:induction false} EscapingIsCharByChar(text: string)
    ensures Escape(text) == EscapeEach(text)
  {
    if text != "" {
      var head := if text[0] == '\\' then "\\\\" else [text[0]];
      var rest := ReplaceChar(text[1..], '\\', "\\\\");
      ReplaceInTurn(head, rest, ',', "\\,");
      ReplaceInTurn(ReplaceChar(head, ',', "\\,"), ReplaceChar(rest, ',', "\\,"), '=', "\\=");
      EscapingIsCharByChar(text[1..]);
      OneCharEscaped(text[0]);
    }
  }

  lemma OneCharEscaped(c: char)
    ensures ReplaceChar(ReplaceChar(if c == '\\' then "\\\\" else [c], ',', "\\,"), '=', "\\=")
            == if IsSpecial(c) then ['\\', c] else [c]
  {
    var first := if c == '\\' then "\\\\" else [c];
    assert first[1..] == if c == '\\' then "\\" else "";
    var second := if c == ',' then "\\," else first;
    assert ReplaceChar("", ',', "\\,") == "" && ReplaceChar("", '=', "\\=") == "";
    assert "\\"[1..] == "" && "\\,"[1..] == "," && ","[1..] == "";
    assert ReplaceChar(first, ',', "\\,") == second;
  }

  // ---------------------------------------------------------------- sorted listing

  predicate Less(a: string, b: string) {
    b != "" && (a == "" || a[0] < b[0] || (a[0] == b[0] && Less(a[1..], b[1..])))
  }

  lemma {:induction false} LessIsTotal(a: string, b: string)
    ensures a == b || Less(a, b) || Less(b, a)
    ensures !(Less(a, b) && Less(b, a)) && !Less(a, a)
  {
    if a != "" && b != "" {
      LessIsTotal(a[1..], b[1..]);
      assert a == [a[0]] + a[1..] && b == [b[0]] + b[1..];
    }
    if a != "" { LessIsIrreflexive(a); }
  }

  lemma {:induction false} LessIsIrreflexive(a: string)
    ensures !Less(a, a)
  {
    if a != "" { LessIsIrreflexive(a[1..]); }
  }

  lemma {:induction false} LessIsTransitive(a: string, b: string, c: string)
    requires Less(a, b) && Less(b, c)
    ensures Less(a, c)
  {
    if a != "" && a[0] == b[0] == c[0] { LessIsTransitive(a[1..], b[1..], c[1..]); }
  }

  predicate IsLeast(keys: set<string>, k: string) {
    k in keys && forall other | other in keys :: other == k || Less(k, other)
  }

  lemma {:induction false} LeastExists(keys: set<string>)
    requires keys != {}
    ensures exists k :: IsLeast(keys, k)
    decreases |keys|
  {
    var x :| x in keys;
    if keys == {x} {
      assert IsLeast(keys, x);
    } else {
      var rest := keys - {x};
      assert rest != {};
      LeastExists(rest);
      var k :| IsLeast(rest, k);
      LessIsTotal(k, x);
      if Less(k, x) {
        assert IsLeast(keys, k);
      } else {
        forall other | other in keys ensures other == x || Less(x, other) {
          if other != x && other != k { LessIsTransitive(x, k, other); }
        }
        assert IsLeast(keys, x);
      }
    }
  }

  function Least(keys: set<string>): (k: string)
    requires keys != {}
    ensures IsLeast(keys, k)
  {
    LeastExists(keys);
    assert forall a, b | IsLeast(keys, a) && IsLeast(keys, b) :: a == b by {
      forall a, b | IsLeast(keys, a) && IsLeast(keys, b) ensures a == b { LessIsTotal(a, b); }
    }
    var k :| IsLeast(keys, k);
    k
  }

  /** `sorted(inputs)` */
  function Listed(keys: set<string>): (names: seq<string>)
    ensures forall name :: name in names <==> name in keys
    ensures forall i, j | 0 <= i < j < |names| :: Less(names[i], names[j])
    decreases |keys|
  {
    if keys == {} then []
    else
      var k := Least(keys);
      var rest := Listed(keys - {k});
      assert forall i | 0 <= i < |rest| :: rest[i] in rest && rest[i] != k;
      [k] + rest
  }

  // ---------------------------------------------------------------- the key

  type Pairs = seq<(string, string)>

  function PairsOf<V>(inputs: Inputs<V>, str: V -> string, names: seq<string>): (pairs: Pairs)
    requires forall name | name in names :: name in inputs
    ensures |pairs| == |names| && forall i | 0 <= i < |names| :: pairs[i] == (names[i], str(inputs[names[i]]))
  {
    if names == [] then [] else [(names[0], str(inputs[names[0]]))] + PairsOf(inputs, str, names[1..])
  }

  /** `",".join(...)` */
  function Joined(pairs: Pairs): string {
    if pairs == [] then ""
    else
      Escape(pairs[0].0) + "=" + Escape(pairs[0].1) + if |pairs| == 1 then "" else "," + Joined(pairs[1..])
  }

  function Key<V>(inputs: Inputs<V>, str: V -> string): string {
    Joined(PairsOf(inputs, str, Listed(inputs.Keys)))
  }

  // ---------------------------------------------------------------- reading a key back

  /** An escaped text up to the first bare separator, and what follows. */
  function ReadText(s: string): (r: (string, string))
    ensures |r.1| <= |s|
  {
    if s == "" || s[0] == ',' || s[0] == '=' then ("", s)
    else if s[0] == '\\' && |s| > 1 then
      var more := ReadText(s[2..]);
      ([s[1]] + more.0, more.1)
    else
      var more := ReadText(s[1..]);
      ([s[0]] + more.0, more.1)
  }

  /** Splitting at bare separators, unescaping on the way. */
  function ReadPairs(s: string): Pairs
    decreases |s|
  {
    var name := ReadText(s);
    if name.1 == "" then [(name.0, "")]
    else
      var value := ReadText(name.1[1..]);
      [(name.0, value.0)] + if value.1 == "" then [] else ReadPairs(value.1[1..])
  }

  function Collected(pairs: Pairs): Texts {
    if pairs == [] then map[] else Collected(pairs[..|pairs| - 1])[pairs[|pairs| - 1].0 := pairs[|pairs| - 1].1]
  }

  function ReadKey(s: string): Texts {
    if s == "" then map[] else Collected(ReadPairs(s))
  }

  predicate Bare(rest: string) {
    rest == "" || rest[0] == ',' || rest[0] == '='
  }

  lemma ReadEscaped(c: char, more: string)
    ensures ReadText(['\\', c] + more) == ([c] + ReadText(more).0, ReadText(more).1)
  {
    var s := ['\\', c] + more;
    assert s[2..] == more;
  }

  lemma ReadPlain(c: char, more: string)
    requires !IsSpecial(c)
    ensures ReadText([c] + more) == ([c] + ReadText(more).0, ReadText(more).1)
  {
    var s := [c] + more;
    assert s[1..] == more;
  }

  lemma {:induction false} TextsAreReadBack(text: string, rest: string)
    requires Bare(rest)
    ensures ReadText(EscapeEach(text) + rest) == (text, rest)
  {
    if text == "" {
      assert "" + rest == rest;
    } else {
      TextsAreReadBack(text[1..], rest);
      OneMoreCharRead(text[0], text[1..], EscapeEach(text[1..]), rest);
      assert text == [text[0]] + text[1..];
    }
  }

  lemma OneMoreCharRead(c: char, text: string, escaped: string, rest: string)
    requires ReadText(escaped + rest) == (text, rest)
    ensures ReadText((if IsSpecial(c) then ['\\', c] else [c]) + escaped + rest) == ([c] + text, rest)
  {
    hide ReadText;
    if IsSpecial(c) {
      ReadEscaped(c, escaped + rest);
      assert ['\\', c] + escaped + rest == ['\\', c] + (escaped + rest);
    } else {
      ReadPlain(c, escaped + rest);
      assert [c] + escaped + rest == [c] + (escaped + rest);
    }
  }

  lemma {:induction false} OnePairIsReadBack(name: string, value: string, after: string)
    requires Bare(after)
    ensures ReadPairs(EscapeEach(name) + ("=" + (EscapeEach(value) + after))) ==
              [(name, value)] + if after == "" then [] else ReadPairs(after[1..])
  {
    hide EscapeEach, ReadText;
    var afterName := "=" + (EscapeEach(value) + after);
    TextsAreReadBack(name, afterName);
    TextsAreReadBack(value, after);
    assert afterName[1..] == EscapeEach(value) + after;
  }

  lemma JoinedAsRead(pairs: Pairs)
    requires pairs != []
    ensures Joined(pairs) ==
              EscapeEach(pairs[0].0)
              + ("=" + (EscapeEach(pairs[0].1) + if |pairs| == 1 then "" else "," + Joined(pairs[1..])))
  {
    EscapingIsCharByChar(pairs[0].0);
    EscapingIsCharByChar(pairs[0].1);
    hide EscapeEach, Escape;
  }

  lemma {:induction false} PairsAreReadBack(pairs: Pairs)
    requires pairs != []
    ensures ReadPairs(Joined(pairs)) == pairs
  {
    JoinedAsRead(pairs);
    hide EscapeEach, Joined, ReadPairs;
    var after := if |pairs| == 1 then "" else "," + Joined(pairs[1..]);
    OnePairIsReadBack(pairs[0].0, pairs[0].1, after);
    if |pairs| > 1 {
      assert after[1..] == Joined(pairs[1..]);
      PairsAreReadBack(pairs[1..]);
    }
    assert pairs == [pairs[0]] + pairs[1..];
  }

  lemma {:induction false} CollectedFinds(pairs: Pairs)
    requires forall i, j | 0 <= i < j < |pairs| :: pairs[i].0 != pairs[j].0
    ensures forall i | 0 <= i < |pairs| :: pairs[i].0 in Collected(pairs) && Collected(pairs)[pairs[i].0] == pairs[i].1
    ensures forall name | name in Collected(pairs) :: exists i :: 0 <= i < |pairs| && pairs[i].0 == name
  {
    if pairs != [] {
      var n := |pairs| - 1;
      var front := pairs[..n];
      CollectedFinds(front);
      assert forall i | 0 <= i < n :: front[i] == pairs[i];
    }
  }

  lemma {:induction false} CollectedAsTexts<V>(inputs: Inputs<V>, str: V -> string, names: seq<string>)
    requires forall name :: name in names <==> name in inputs
    requires forall i, j | 0 <= i < j < |names| :: names[i] != names[j]
    ensures Collected(PairsOf(inputs, str, names)) == AsTexts(inputs, str)
  {
    hide Collected, PairsOf, AsTexts;
    var pairs := PairsOf(inputs, str, names);
    CollectedFinds(pairs);
    var collected := Collected(pairs);
    forall name | name in inputs ensures name in collected && collected[name] == str(inputs[name]) {
      var i :| 0 <= i < |names| && names[i] == name;
      assert pairs[i] == (name, str(inputs[name]));
    }
    forall name | name in collected ensures name in inputs {
      var i :| 0 <= i < |pairs| && pairs[i].0 == name;
      assert pairs[i].0 == names[i] && names[i] in names;
    }
  }

  /** The key says everything about how the inputs read. */
  lemma {:induction false} KeysAreReadBack<V>(inputs: Inputs<V>, str: V -> string)
    ensures ReadKey(Key(inputs, str)) == AsTexts(inputs, str)
  {
    hide Joined, ReadPairs, Collected, PairsOf, Listed, AsTexts, Less;
    var names := Listed(inputs.Keys);
    var pairs := PairsOf(inputs, str, names);
    forall i, j | 0 <= i < j < |names| ensures names[i] != names[j] { LessIsIrreflexive(names[i]); }
    CollectedAsTexts(inputs, str, names);
    if names == [] {
      EmptyIsEmpty();
      assert AsTexts(inputs, str).Keys == {};
    } else {
      PairsAreReadBack(pairs);
      JoinedIsSomething(pairs);
    }
  }

  lemma EmptyIsEmpty()
    ensures Joined([]) == ""
  {
  }

  lemma JoinedIsSomething(pairs: Pairs)
    requires pairs != []
    ensures Joined(pairs) != ""
  {
    hide Escape;
    assert Joined(pairs)[|Escape(pairs[0].0)|] == '=';
  }

  /** The key depends on the names and texts alone. */
  lemma {:induction false} KeyOfTexts<V>(inputs: Inputs<V>, str: V -> string)
    ensures Key(inputs, str) == Key(AsTexts(inputs, str), (text: string) => text)
  {
    var names, texts := Listed(inputs.Keys), AsTexts(inputs, str);
    assert PairsOf(inputs, str, names) == PairsOf(texts, (text: string) => text, names);
  }

  /** Two runs share a key exactly when their inputs have the same names and read the same. */
  lemma {:induction false} KeysTellTexts<V>(a: Inputs<V>, b: Inputs<V>, str: V -> string)
    ensures Key(a, str) == Key(b, str) <==> AsTexts(a, str) == AsTexts(b, str)
  {
    KeyOfTexts(a, str);
    KeyOfTexts(b, str);
    hide Key, ReadKey, AsTexts;
    KeysAreReadBack(a, str);
    KeysAreReadBack(b, str);
  }

  ghost predicate Injective<V(!new)>(str: V -> string) {
    forall x, y :: str(x) == str(y) ==> x == y
  }

  ghost predicate OneToOne<V(!new)>(str: V -> string) {
    forall a: Inputs<V>, b: Inputs<V> :: Key(a, str) == Key(b, str) ==> a == b
  }

  /** The mapping from inputs to keys is one-to-one exactly when no two values read the
      same: so it is for texts, and so it is not once numbers come in beside texts. */
  lemma {:induction false} KeysAreOneToOneExactlyWhen<V(!new)>(str: V -> string)
    ensures OneToOne(str) <==> Injective(str)
  {
    hide Key;
    if Injective(str) {
      forall a: Inputs<V>, b: Inputs<V> | Key(a, str) == Key(b, str) ensures a == b {
        KeysTellTexts(a, b, str);
        SameTextsSameInputs(a, b, str);
      }
    } else {
      var x, y :| str(x) == str(y) && x != y;
      var a, b: Inputs<V> := map["name" := x], map["name" := y];
      KeysTellTexts(a, b, str);
      assert AsTexts(a, str) == AsTexts(b, str);
      assert a["name"] != b["name"];
    }
  }

  lemma SameTextsSameInputs<V>(a: Inputs<V>, b: Inputs<V>, str: V -> string)
    requires AsTexts(a, str) == AsTexts(b, str)
    requires forall name | name in a && name in b && str(a[name]) == str(b[name]) :: a[name] == b[name]
    ensures a == b
  {
    assert a.Keys == AsTexts(a, str).Keys == b.Keys;
    assert forall name | name in a :: str(a[name]) == AsTexts(a, str)[name] == str(b[name]);
  }

  // ---------------------------------------------------------------- determinism

  /** What is compared of a run: its inputs, and its decisions row by row. */
  datatype Run<V> = Run(inputs: Inputs<V>, decisions: seq<seq<string>>)

  function Group<V>(records: seq<Run<V>>, str: V -> string, key: string): seq<Run<V>> {
    if records == [] then []
    else
      var n := |records| - 1;
      Group(records[..n], str, key) + if Key(records[n].inputs, str) == key then [records[n]] else []
  }

  method ByInputs<V>(records: seq<Run<V>>, str: V -> string) returns (grouped: map<string, seq<Run<V>>>)
    ensures forall key :: key in grouped <==> Group(records, str, key) != []
    ensures forall key | key in grouped :: grouped[key] == Group(records, str, key)
  {
    hide Key;
    grouped := map[];
    for i := 0 to |records|
      invariant forall key :: key in grouped <==> Group(records[..i], str, key) != []
      invariant forall key | key in grouped :: grouped[key] == Group(records[..i], str, key)
    {
      assert records[..i + 1][..i] == records[..i];
      var key := Key(records[i].inputs, str);
      var before := if key in grouped then grouped[key] else [];
      grouped := grouped[key := before + [records[i]]];
    }
    assert records[..|records|] == records;
  }

  predicate Agree<V>(group: seq<Run<V>>) {
    forall i | 0 < i < |group| :: group[i].decisions == group[0].decisions
  }

  method DeterminismHolds<V>(records: seq<Run<V>>, str: V -> string) returns (verdict: Option<bool>)
    ensures verdict.Some? <==> exists key :: |Group(records, str, key)| >= 2
    ensures verdict == Some(false) <==> exists key :: !Agree(Group(records, str, key))
  {
    hide Group;
    var grouped := ByInputs(records, str);
    var keys := grouped.Keys;
    var measured := false;
    while keys != {}
      invariant keys <= grouped.Keys
      invariant forall key | key in grouped && key !in keys :: Agree(grouped[key])
      invariant measured <==> exists key :: key in grouped && key !in keys && |grouped[key]| >= 2
      decreases |keys|
    {
      var key :| key in keys;
      keys := keys - {key};
      var group := grouped[key];
      if |group| >= 2 {
        measured := true;
        if !Agree(group) {
          assert !Agree(Group(records, str, key)) && |Group(records, str, key)| >= 2;
          return Some(false);
        }
      }
    }
    forall key ensures Agree(Group(records, str, key)) && (|Group(records, str, key)| >= 2 ==> measured) {
      assert key in grouped ==> grouped[key] == Group(records, str, key);
    }
    assert measured ==> exists key :: |Group(records, str, key)| >= 2;
    return if measured then Some(true) else None;
  }

  // ---------------------------------------------------------------- what the verdict says

  predicate SameTexts<V>(records: seq<Run<V>>, str: V -> string, i: nat, j: nat)
    requires i < |records| && j < |records|
  {
    AsTexts(records[i].inputs, str) == AsTexts(records[j].inputs, str)
  }

  lemma {:induction false} GroupMembers<V>(records: seq<Run<V>>, str: V -> string, key: string)
    ensures forall r :: r in Group(records, str, key) <==> r in records && Key(r.inputs, str) == key
  {
    hide Key;
    if records != [] {
      var n := |records| - 1;
      GroupMembers(records[..n], str, key);
      assert records == records[..n] + [records[n]];
    }
  }

  predicate Keyed<V>(records: seq<Run<V>>, str: V -> string, i: nat, key: string)
    requires i < |records|
  {
    Key(records[i].inputs, str) == key
  }

  ghost predicate TwoKeyed<V>(records: seq<Run<V>>, str: V -> string, key: string) {
    exists i, j :: 0 <= i < j < |records| && Keyed(records, str, i, key) && Keyed(records, str, j, key)
  }

  lemma {:induction false} GroupOfTwo<V>(records: seq<Run<V>>, str: V -> string, key: string)
    ensures |Group(records, str, key)| >= 2 <==> TwoKeyed(records, str, key)
  {
    hide Key;
    if records != [] {
      var n := |records| - 1;
      var rest := records[..n];
      GroupOfTwo(rest, str, key);
      var front := Group(rest, str, key);
      assert |Group(records, str, key)| == |front| + if Keyed(records, str, n, key) then 1 else 0;
      SomeKeyed(rest, str, key);
      hide Group;
      TwoOrTheLast(records, str, key);
    }
  }

  ghost predicate OneKeyed<V>(records: seq<Run<V>>, str: V -> string, key: string) {
    exists i :: 0 <= i < |records| && Keyed(records, str, i, key)
  }

  lemma {:induction false} SomeKeyed<V>(records: seq<Run<V>>, str: V -> string, key: string)
    ensures Group(records, str, key) != [] <==> OneKeyed(records, str, key)
  {
    hide Key;
    if records != [] {
      var n := |records| - 1;
      var rest := records[..n];
      SomeKeyed(rest, str, key);
      assert forall i | 0 <= i < n :: Keyed(records, str, i, key) <==> Keyed(rest, str, i, key);
      assert Keyed(records, str, n, key) <==> Key(records[n].inputs, str) == key;
    }
  }

  lemma {:induction false} TwoOrTheLast<V>(records: seq<Run<V>>, str: V -> string, key: string)
    requires records != []
    ensures var n := |records| - 1;
            TwoKeyed(records, str, key) <==>
              || TwoKeyed(records[..n], str, key)
              || (Keyed(records, str, n, key) && OneKeyed(records[..n], str, key))
  {
    hide Key;
    var n := |records| - 1;
    var rest := records[..n];
    assert forall i | 0 <= i < n :: Keyed(records, str, i, key) <==> Keyed(rest, str, i, key);
    if i, j :| 0 <= i < j < |records| && Keyed(records, str, i, key) && Keyed(records, str, j, key) {
      if j < n { assert Keyed(rest, str, i, key) && Keyed(rest, str, j, key); }
    }
    if i, j :| 0 <= i < j < n && Keyed(rest, str, i, key) && Keyed(rest, str, j, key) {
      assert Keyed(records, str, i, key) && Keyed(records, str, j, key);
    }
  }

  /** Which keys disagreed, sorted. */
  method NondeterministicCases<V>(records: seq<Run<V>>, str: V -> string) returns (offenders: seq<string>)
    ensures forall key :: key in offenders <==> !Agree(Group(records, str, key))
    ensures forall i, j | 0 <= i < j < |offenders| :: Less(offenders[i], offenders[j])
  {
    hide Group;
    var grouped := ByInputs(records, str);
    var found := set key | key in grouped && |grouped[key]| >= 2 && !Agree(grouped[key]);
    forall key ensures key in found <==> !Agree(Group(records, str, key)) {
      assert key in grouped ==> grouped[key] == Group(records, str, key);
    }
    offenders := Listed(found);
  }

  /** Two runs on inputs that read the same that decided differently. */
  ghost predicate Disagree<V>(records: seq<Run<V>>, str: V -> string, i: nat, j: nat)
    requires i < |records| && j < |records|
  {
    AsTexts(records[i].inputs, str) == AsTexts(records[j].inputs, str) && records[i].decisions != records[j].decisions
  }

  lemma {:induction false} GroupsAgreeWhenRunsDo<V>(records: seq<Run<V>>, str: V -> string, key: string)
    ensures !Agree(Group(records, str, key)) <==>
              exists i, j :: 0 <= i < j < |records| && Disagree(records, str, i, j) && Keyed(records, str, i, key)
  {
    hide Key, AsTexts, Group;
    var group := Group(records, str, key);
    GroupMembers(records, str, key);
    if !Agree(group) {
      var k :| 0 < k < |group| && group[k].decisions != group[0].decisions;
      assert group[k] in group && group[0] in group;
      var i :| 0 <= i < |records| && records[i] == group[k];
      var j :| 0 <= j < |records| && records[j] == group[0];
      KeysTellTexts(records[i].inputs, records[j].inputs, str);
      assert Disagree(records, str, if i < j then i else j, if i < j then j else i);
    }
    if i, j :| 0 <= i < j < |records| && Disagree(records, str, i, j) && Keyed(records, str, i, key) {
      KeysTellTexts(records[i].inputs, records[j].inputs, str);
      assert records[i] in group && records[j] in group;
      var a :| 0 <= a < |group| && group[a] == records[i];
      var b :| 0 <= b < |group| && group[b] == records[j];
    }
  }

  /** The verdict, in terms of runs: nothing measured when no inputs were replayed
      twice, false exactly when two runs on inputs that read the same decided
      differently, and the offenders are the keys of just those inputs. */
  lemma {:induction false} TheVerdictIsAboutEqualTexts<V>(records: seq<Run<V>>, str: V -> string)
    ensures (exists key :: |Group(records, str, key)| >= 2) <==>
              exists i, j :: 0 <= i < j < |records| && SameTexts(records, str, i, j)
    ensures (exists key :: !Agree(Group(records, str, key))) <==>
              exists i, j :: 0 <= i < j < |records| && Disagree(records, str, i, j)
  {
    hide Key, AsTexts, Group, Agree;
    forall key
      ensures |Group(records, str, key)| >= 2 ==>
                exists i, j :: 0 <= i < j < |records| && SameTexts(records, str, i, j)
    {
      GroupOfTwo(records, str, key);
      if |Group(records, str, key)| >= 2 {
        var i, j :| 0 <= i < j < |records| && Keyed(records, str, i, key) && Keyed(records, str, j, key);
        KeysTellTexts(records[i].inputs, records[j].inputs, str);
        assert SameTexts(records, str, i, j);
      }
    }
    if i, j :| 0 <= i < j < |records| && SameTexts(records, str, i, j) {
      GroupOfTwo(records, str, Key(records[i].inputs, str));
      KeysTellTexts(records[i].inputs, records[j].inputs, str);
      assert Keyed(records, str, i, Key(records[i].inputs, str)) && Keyed(records, str, j, Key(records[i].inputs, str));
      assert |Group(records, str, Key(records[i].inputs, str))| >= 2;
    }
    forall key
      ensures !Agree(Group(records, str, key)) ==>
                exists i, j :: 0 <= i < j < |records| && Disagree(records, str, i, j)
    {
      GroupsAgreeWhenRunsDo(records, str, key);
    }
    if i, j :| 0 <= i < j < |records| && Disagree(records, str, i, j) {
      GroupsAgreeWhenRunsDo(records, str, Key(records[i].inputs, str));
      assert Keyed(records, str, i, Key(records[i].inputs, str));
      assert !Agree(Group(records, str, Key(records[i].inputs, str)));
    }
  }

  /** No two of the values given under one name read the same unless they are the same. */
  ghost predicate Unmistaken<V>(records: seq<Run<V>>, str: V -> string) {
    forall i, j | 0 <= i < |records| && 0 <= j < |records| ::
      forall name | name in records[i].inputs && name in records[j].inputs ::
        str(records[i].inputs[name]) == str(records[j].inputs[name]) ==>
          records[i].inputs[name] == records[j].inputs[name]
  }

  /** Then the verdict is about equal inputs: false exactly when two runs on equal
      inputs decided differently. */
  lemma {:induction false} TheVerdictIsAboutEqualInputs<V>(records: seq<Run<V>>, str: V -> string)
    requires Unmistaken(records, str)
    ensures (exists key :: |Group(records, str, key)| >= 2) <==>
              exists i, j :: 0 <= i < j < |records| && records[i].inputs == records[j].inputs
    ensures (exists key :: !Agree(Group(records, str, key))) <==>
              exists i, j ::
                0 <= i < j < |records| && records[i].inputs == records[j].inputs
                && records[i].decisions != records[j].decisions
  {
    hide Agree, Group, Key, AsTexts;
    TheVerdictIsAboutEqualTexts(records, str);
    forall i, j | 0 <= i < j < |records|
      ensures SameTexts(records, str, i, j) <==> records[i].inputs == records[j].inputs
    {
      if SameTexts(records, str, i, j) { SameTextsSameInputs(records[i].inputs, records[j].inputs, str); }
    }
    if i, j :| 0 <= i < j < |records| && Disagree(records, str, i, j) {
      assert SameTexts(records, str, i, j);
    }
    if i, j :| 0 <= i < j < |records| && records[i].inputs == records[j].inputs
               && records[i].decisions != records[j].decisions {
      assert Disagree(records, str, i, j);
    }
  }

  // ---------------------------------------------------------------- where it goes wrong

  datatype Scalar = Number(n: nat) | Text(text: string)

  function Decimal(n: nat): string {
    if n < 10 then ["0123456789"[n]] else Decimal(n / 10) + ["0123456789"[n % 10]]
  }

  function Str(value: Scalar): string {
    match value
    case Number(n) => Decimal(n)
    case Text(text) => text
  }

  /** A run on the number 1 and a run on the text "1" share a group, and two such runs
      that differ are reported as one input decided in two ways. */
  lemma ANumberIsTakenForItsText(decided: seq<seq<string>>, otherwise: seq<seq<string>>)
    requires decided != otherwise
    ensures var records := [Run(map["n" := Number(1)], decided), Run(map["n" := Text("1")], otherwise)];
            && records[0].inputs != records[1].inputs
            && Key(records[0].inputs, Str) == Key(records[1].inputs, Str)
            && !Agree(Group(records, Str, Key(records[0].inputs, Str)))
  {
    hide Key, Agree, Group;
    var a, b := map["n" := Number(1)], map["n" := Text("1")];
    var records := [Run(a, decided), Run(b, otherwise)];
    assert Str(Number(1)) == "1" == Str(Text("1"));
    assert AsTexts(a, Str) == AsTexts(b, Str);
    KeysTellTexts(a, b, Str);
    assert a["n"] != b["n"];
    GroupsAgreeWhenRunsDo(records, Str, Key(a, Str));
    assert Disagree(records, Str, 0, 1);
  }
}
