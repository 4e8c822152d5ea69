/** What normalisation does to the text of a path, law by law. */
module PathLaws {
  import opened Bytes
  import opened PathSpec

  // ---------- a backslash is a slash ---------------------------------------

  lemma SlashesOfBackslash(a: string, b: string)
    ensures Slashes(a + "\\" + b) == Slashes(a) + "/" + Slashes(b) == Slashes(a + "/" + b)
  {
  }

  /** A backslash parts segments as a slash does. */
  lemma BackslashParts(a: string, b: string)
    ensures Segments(Slashes(a + "\\" + b)) == Segments(Slashes(a)) + Segments(Slashes(b))
  {
    SlashesOfBackslash(a, b);
    SegmentsConcat(Slashes(a), Slashes(b));
  }

  lemma SameColons(a: string, b: string)
    ensures ':' in a + "\\" + b <==> ':' in a + "/" + b
  {
    Colons(a, b);
    var s, t := a + "\\" + b, a + "/" + b;
    assert forall i :: 0 <= i < |s| ==> (s[i] == ':' <==> t[i] == ':');
  }

  /** Any slash of a path may as well be a backslash, whatever the size of the output. */
  lemma BackslashIsSlash(a: string, b: string, capacity: nat, allowEmpty: bool)
    ensures NormalizeWithin(a + "\\" + b, capacity, allowEmpty) == NormalizeWithin(a + "/" + b, capacity, allowEmpty)
    ensures Normalize(a + "\\" + b, allowEmpty) == Normalize(a + "/" + b, allowEmpty)
  {
    SlashesOfBackslash(a, b);
    SameColons(a, b);
  }

  // ---------- laws of segments ---------------------------------------------

  /** Two relative paths without a colon, short enough, with the same effect on the stack. */
  lemma SameReduction(s: string, t: string, allowEmpty: bool)
    requires |s| < 512 && |t| < 512 && !Absolute(s) && !Absolute(t) && (':' in s <==> ':' in t)
    requires Reduce([], Segments(Slashes(s))) == Reduce([], Segments(Slashes(t)))
    ensures Normalize(s, allowEmpty) == Normalize(t, allowEmpty)
  {
  }

  /** a/m/b */
  function Between(a: string, m: string, b: string): string {
    a + "/" + m + "/" + b
  }

  lemma BetweenParts(a: string, m: string, b: string)
    ensures Segments(Slashes(Between(a, m, b))) == Segments(Slashes(a)) + Segments(Slashes(m)) + Segments(Slashes(b))
    ensures ':' in Between(a, m, b) <==> ':' in a || ':' in m || ':' in b
  {
    JoinSlashes(a + "/" + m, b);
    JoinSlashes(a, m);
    SegmentsConcat(Slashes(a + "/" + m), Slashes(b));
    SegmentsConcat(Slashes(a), Slashes(m));
    Colons(a + "/" + m, b);
    Colons(a, m);
  }

  /** Something in the middle that leaves every stack as it is may be left out. */
  lemma Neutral(a: string, m: string, b: string, allowEmpty: bool)
    requires a != "" && |Between(a, m, b)| < 512 && ':' !in m
    requires forall st: seq<string> {:trigger Reduce(st, Segments(Slashes(m)))} ::
      Reduce(st, Segments(Slashes(m))) == Some(st)
    ensures Normalize(Between(a, m, b), allowEmpty) == Normalize(a + "/" + b, allowEmpty)
  {
    var sa, sm, sb := Segments(Slashes(a)), Segments(Slashes(m)), Segments(Slashes(b));
    BetweenParts(a, m, b);
    JoinSlashes(a, b);
    SegmentsConcat(Slashes(a), Slashes(b));
    Colons(a, b);
    ReduceConcat([], sa + sm, sb);
    ReduceConcat([], sa, sm);
    ReduceConcat([], sa, sb);
    assert Between(a, m, b)[0] == a[0] == (a + "/" + b)[0];
    if !Absolute(a) { SameReduction(Between(a, m, b), a + "/" + b, allowEmpty); }
  }

  lemma {:induction false} SlashesOf(s: string)
    requires '\\' !in s
    ensures Slashes(s) == s
  {
    SlashesIdentity(s);
  }

  /** a//b is a/b. */
  lemma EmptySegment(a: string, b: string, allowEmpty: bool)
    requires a != "" && |Between(a, "", b)| < 512
    ensures Normalize(Between(a, "", b), allowEmpty) == Normalize(a + "/" + b, allowEmpty)
  {
    SlashesOf("");
    assert Segments("") == [];
    Neutral(a, "", b, allowEmpty);
  }

  /** a/./b is a/b. */
  lemma DotSegment(a: string, b: string, allowEmpty: bool)
    requires a != "" && |Between(a, ".", b)| < 512
    ensures Normalize(Between(a, ".", b), allowEmpty) == Normalize(a + "/" + b, allowEmpty)
  {
    SlashesOf(".");
    SegmentsOne(".");
    forall st: seq<string> ensures Reduce(st, ["."]) == Some(st) {
      assert ["."][1..] == [];
    }
    Neutral(a, ".", b, allowEmpty);
  }

  lemma PlainSegment(seg: string)
    requires Plain(seg)
    ensures '/' !in seg && '\\' !in seg && ':' !in seg && Slashes(seg) == seg && Segments(seg) == [seg]
  {
    SlashesOf(seg);
    SegmentsOne(seg);
  }

  lemma DownAndUp(st: seq<string>, seg: string)
    requires Plain(seg)
    ensures Reduce(st, [seg, ".."]) == Some(st)
  {
    assert [seg, ".."][1..] == [".."] && [".."][1..] == [];
    assert (st + [seg])[..|st|] == st;
  }

  lemma DownAndUpParts(seg: string)
    requires Plain(seg)
    ensures Segments(Slashes(seg + "/..")) == [seg, ".."] && ':' !in seg + "/.."
  {
    PlainSegment(seg);
    assert seg + "/.." == seg + "/" + "..";
    JoinSlashes(seg, "..");
    SlashesOf("..");
    SegmentsOne("..");
    SegmentsConcat(seg, "..");
    Colons(seg, "..");
  }

  /** a/x/../b is a/b, for any name x. */
  lemma UpSegment(a: string, seg: string, b: string, allowEmpty: bool)
    requires a != "" && Plain(seg) && |Between(a, seg + "/..", b)| < 512
    ensures Normalize(Between(a, seg + "/..", b), allowEmpty) == Normalize(a + "/" + b, allowEmpty)
  {
    DownAndUpParts(seg);
    forall st: seq<string> ensures Reduce(st, [seg, ".."]) == Some(st) {
      DownAndUp(st, seg);
    }
    Neutral(a, seg + "/..", b, allowEmpty);
  }

  // ---------- what is left -------------------------------------------------

  /** A name alone is its own result. */
  lemma OneName(seg: string, allowEmpty: bool)
    requires Plain(seg) && |seg| < 512
    ensures Normalize(seg, allowEmpty) == Some(seg)
  {
    PlainSegment(seg);
    assert [seg][1..] == [] && [] + [seg] == [seg];
    assert Reduce([], [seg]) == Some([seg]) && Join([seg]) == seg;
    assert PlainChar(seg[0]);
  }

  /** One more name is one more name in the result. */
  lemma OneMoreName(a: string, seg: string, allowEmpty: bool)
    requires Plain(seg) && |a + "/" + seg| < 512
    requires Normalize(a, allowEmpty).Some? && Normalize(a, allowEmpty).value != ""
    ensures Normalize(a + "/" + seg, allowEmpty) == Some(Normalize(a, allowEmpty).value + "/" + seg)
  {
    var st := Reduced(a, allowEmpty);
    PlainSegment(seg);
    JoinNormal(st);
    JoinSlashes(a, seg);
    SegmentsConcat(Slashes(a), seg);
    ReduceConcat([], Segments(Slashes(a)), [seg]);
    PushName(st, seg);
    Colons(a, seg);
    NotAbsolute(a, seg, allowEmpty);
  }

  lemma PushName(st: seq<string>, seg: string)
    requires Plain(seg) && st != []
    ensures Reduce(st, [seg]) == Some(st + [seg]) && Join(st + [seg]) == Join(st) + "/" + seg
  {
    assert [seg][1..] == [];
    assert (st + [seg])[..|st|] == st;
  }

  /** Nothing is nothing, which is a result if it is allowed, and there is no way up from it. */
  lemma NoName(allowEmpty: bool)
    ensures Normalize("", allowEmpty) == if allowEmpty then Some("") else None
    ensures Normalize("..", allowEmpty) == None
  {
    SlashesOf("");
    SlashesOf("..");
    SegmentsOne("..");
    assert Segments("") == [];
  }

  /** What a caller may rely on for a mount point: an absolute path, or a colon anywhere, is refused. */
  lemma Refused(input: string, allowEmpty: bool)
    requires |input| >= 512 || ':' in input || (input != "" && (input[0] == '/' || input[0] == '\\'))
    ensures Normalize(input, allowEmpty) == None
  {
  }

  // ---------- outputs of other sizes ---------------------------------------

  /** After every prefix of the segments the stack and its text fit. */
  ghost predicate FitsThroughout(st: seq<string>, segs: seq<string>, capacity: nat)
    decreases |segs|
  {
    segs != [] ==>
      match Push(st, segs[0])
      case None => true
      case Some(t) => (|t| > |st| ==> |t| <= 256 && |Join(t)| + 1 <= capacity) && FitsThroughout(t, segs[1..], capacity)
  }

  lemma {:induction false} WithinReduces(st: seq<string>, segs: seq<string>, capacity: nat)
    ensures ReduceWithin(st, segs, capacity) ==
      if FitsThroughout(st, segs, capacity) then Reduce(st, segs) else None
    decreases |segs|
  {
    if segs != [] && Push(st, segs[0]).Some? {
      WithinReduces(Push(st, segs[0]).value, segs[1..], capacity);
    }
  }
}
