/** Node identity, `make_node_id` of `perception/normalize.py`: a frame and the
    role/index path from the root, written out as one string. */
module NodeIds {
  import opened Outcomes

  type Segment = (string, nat)
  type Path = seq<Segment>

  function Decimal(n: nat): (s: string)
    ensures s != [] && forall c | c in s :: '0' <= c <= '9'
  {
    var digit := ['0' + (n % 10) as char];
    if n < 10 then digit else Decimal(n / 10) + digit
  }

  function SegmentText(segment: Segment): string {
    segment.0 + "[" + Decimal(segment.1) + "]"
  }

  function Trail(path: Path): string {
    if path == [] then ""
    else if |path| == 1 then SegmentText(path[0])
    else SegmentText(path[0]) + "/" + Trail(path[1..])
  }

  function FrameText(frame: Option<string>): string {
    if frame.None? || frame.value == "" then "main" else frame.value
  }

  /** For example `content:/table[0]/row[2]/cell[1]`. */
  function MakeNodeId(frame: Option<string>, path: Path): string {
    FrameText(frame) + ":/" + Trail(path)
  }

  lemma AnIdReads()
    ensures MakeNodeId(Some("content"), [("row", 12), ("cell", 1)]) == "content:/row[12]/cell[1]"
    ensures MakeNodeId(None, [("document", 0)]) == "main:/document[0]"
  {
    var path: Path := [("row", 12), ("cell", 1)];
    assert Decimal(0) == "0" && Decimal(1) == "1" && Decimal(12) == "12";
    hide Decimal;
    assert path[1..] == [("cell", 1)];
    assert Trail(path[1..]) == "cell[1]" && SegmentText(path[0]) == "row[12]";
  }

  /** A path from a root whose roles could not be mistaken for path separators. */
  predicate Plain(path: Path) {
    path != [] && forall segment | segment in path :: '/' !in segment.0
  }

  // ---------------------------------------------------------------- segments

  lemma {:induction false} DecimalIsInjective(a: nat, b: nat)
    requires Decimal(a) == Decimal(b)
    ensures a == b
  {
    var s, t := Decimal(a), Decimal(b);
    assert s[|s| - 1] == '0' + (a % 10) as char && t[|t| - 1] == '0' + (b % 10) as char;
    if a >= 10 && b >= 10 {
      assert s[..|s| - 1] == Decimal(a / 10) && t[..|t| - 1] == Decimal(b / 10);
      DecimalIsInjective(a / 10, b / 10);
    }
  }

  /** The index holds no bracket, so a role ends at the last one. */
  lemma BracketsClose(s: Segment)
    ensures |s.0| + 1 < |SegmentText(s)| && SegmentText(s)[|s.0|] == '['
    ensures forall i | |s.0| < i < |SegmentText(s)| :: SegmentText(s)[i] != '['
    ensures SegmentText(s)[..|s.0|] == s.0
    ensures SegmentText(s)[|s.0| + 1..|SegmentText(s)| - 1] == Decimal(s.1)
  {
    var text, tail := SegmentText(s), Decimal(s.1) + "]";
    assert text == s.0 + ("[" + tail);
    assert forall i | 0 <= i < |tail| :: tail[i] != '[' by {
      assert forall i | 0 <= i < |tail| - 1 :: tail[i] == Decimal(s.1)[i] && Decimal(s.1)[i] in Decimal(s.1);
    }
    assert forall i | |s.0| < i < |text| :: text[i] == tail[i - |s.0| - 1];
  }

  lemma SegmentIsInjective(s: Segment, t: Segment)
    requires SegmentText(s) == SegmentText(t)
    ensures s == t
  {
    hide SegmentText;
    BracketsClose(s);
    BracketsClose(t);
    var text := SegmentText(s);
    assert text[|s.0|] == '[' && text[|t.0|] == '[';
    DecimalIsInjective(s.1, t.1);
  }

  lemma SegmentHasNoSlash(s: Segment)
    requires '/' !in s.0
    ensures '/' !in SegmentText(s) && SegmentText(s) != [] && SegmentText(s)[|SegmentText(s)| - 1] == ']'
  {
  }

  // ---------------------------------------------------------------- trails

  /** Where a string is cut by its first slash is no choice. */
  lemma FirstSlash(x: string, r: string, y: string, s: string)
    requires '/' !in x && '/' !in y
    ensures x + "/" + r == y + "/" + s <==> x == y && r == s
    ensures x + "/" + r <= y + "/" + s <==> x == y && r <= s
  {
    var text, other := x + "/" + r, y + "/" + s;
    assert text[|x|] == '/' && other[|y|] == '/';
    assert forall i | 0 <= i < |x| :: text[i] == x[i] != '/';
    assert forall i | 0 <= i < |y| :: other[i] == y[i] != '/';
    assert text[..|x|] == x && other[..|y|] == y && text[|x| + 1..] == r && other[|y| + 1..] == s;
    if text <= other {
      assert |x| == |y|;
    }
  }

  lemma {:induction false} SlashesSeparate(p: Path)
    requires Plain(p)
    ensures '/' in Trail(p) <==> |p| > 1
  {
    SegmentHasNoSlash(p[0]);
    if |p| > 1 {
      assert Trail(p)[|SegmentText(p[0])|] == '/';
    }
  }

  lemma {:induction false} TrailIsInjective(p: Path, q: Path)
    requires Plain(p) && Plain(q) && Trail(p) == Trail(q)
    ensures p == q
  {
    SegmentHasNoSlash(p[0]);
    SegmentHasNoSlash(q[0]);
    SlashesSeparate(p);
    SlashesSeparate(q);
    if |p| == 1 {
      SegmentIsInjective(p[0], q[0]);
    } else {
      FirstSlash(SegmentText(p[0]), Trail(p[1..]), SegmentText(q[0]), Trail(q[1..]));
      SegmentIsInjective(p[0], q[0]);
      TrailIsInjective(p[1..], q[1..]);
      assert p == [p[0]] + p[1..] && q == [q[0]] + q[1..];
    }
  }

  /** Every slash of a trail follows a closed segment. */
  lemma {:induction false} SlashesFollowBrackets(p: Path, i: nat)
    requires Plain(p) && i < |Trail(p)| && Trail(p)[i] == '/'
    ensures i > 0 && Trail(p)[i - 1] == ']'
  {
    SegmentHasNoSlash(p[0]);
    var head := SegmentText(p[0]);
    if |p| > 1 && i > |head| {
      SlashesFollowBrackets(p[1..], i - |head| - 1);
    }
  }

  // ---------------------------------------------------------------- ids

  /** Whatever the frames are called, an id gives back its path. */
  lemma {:induction false} IdsGiveBackPaths(f: Option<string>, p: Path, g: Option<string>, q: Path)
    requires Plain(p) && Plain(q) && MakeNodeId(f, p) == MakeNodeId(g, q)
    ensures p == q
  {
    if |Trail(p)| < |Trail(q)| {
      NoShorterTrail(f, p, g, q);
    } else if |Trail(q)| < |Trail(p)| {
      NoShorterTrail(g, q, f, p);
    } else {
      var id := MakeNodeId(f, p);
      assert Trail(p) == id[|id| - |Trail(p)|..] == Trail(q);
      TrailIsInjective(p, q);
    }
  }

  lemma {:induction false} NoShorterTrail(f: Option<string>, p: Path, g: Option<string>, q: Path)
    requires Plain(p) && Plain(q) && |Trail(p)| < |Trail(q)|
    ensures MakeNodeId(f, p) != MakeNodeId(g, q)
  {
    if MakeNodeId(f, p) == MakeNodeId(g, q) {
      var id := MakeNodeId(f, p);
      var slash := |id| - |Trail(p)| - 1;
      var inTrail := slash - (|id| - |Trail(q)|);
      assert id[slash] == '/' && id[slash - 1] == ':';
      assert Trail(q)[inTrail] == id[slash];
      assert inTrail > 0 ==> Trail(q)[inTrail - 1] == id[slash - 1];
      SlashesFollowBrackets(q, inTrail);
      assert false;
    }
  }

  lemma {:induction false} TrailPrefixIsPathPrefix(p: Path, q: Path)
    requires Plain(p) && Plain(q)
    ensures Trail(p) + "/" <= Trail(q) <==> p < q
  {
    hide SegmentText;
    SegmentHasNoSlash(p[0]);
    SegmentHasNoSlash(q[0]);
    SlashesSeparate(q);
    if |q| == 1 {
      assert (Trail(p) + "/")[|Trail(p)|] == '/';
    } else {
      SegmentsCompare(p[0], q[0]);
      assert p == [p[0]] + p[1..] && q == [q[0]] + q[1..];
      if |p| == 1 {
        FirstSlash(SegmentText(p[0]), "", SegmentText(q[0]), Trail(q[1..]));
        assert Trail(p) + "/" + "" == Trail(p) + "/";
      } else {
        TrailPrefixIsPathPrefix(p[1..], q[1..]);
        FirstSlash(SegmentText(p[0]), Trail(p[1..]) + "/", SegmentText(q[0]), Trail(q[1..]));
        assert Trail(p) + "/" == SegmentText(p[0]) + "/" + (Trail(p[1..]) + "/");
      }
    }
  }

  lemma SegmentsCompare(s: Segment, t: Segment)
    ensures SegmentText(s) == SegmentText(t) <==> s == t
  {
    if SegmentText(s) == SegmentText(t) { SegmentIsInjective(s, t); }
  }

  /** Within a frame, "starts with the id and a slash" means "lies below". */
  lemma IdPrefixIsPathPrefix(f: Option<string>, p: Path, q: Path)
    requires Plain(p) && Plain(q)
    ensures MakeNodeId(f, p) + "/" <= MakeNodeId(f, q) <==> p < q
  {
    TrailPrefixIsPathPrefix(p, q);
    var before := FrameText(f) + ":/";
    assert MakeNodeId(f, p) + "/" == before + (Trail(p) + "/") && MakeNodeId(f, q) == before + Trail(q);
    if MakeNodeId(f, p) + "/" <= MakeNodeId(f, q) {
      assert MakeNodeId(f, q)[|before|..] == Trail(q);
      assert (MakeNodeId(f, p) + "/")[|before|..] == Trail(p) + "/";
    }
  }
}
