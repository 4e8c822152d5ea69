/** Relative-path normalisation as split, reduce and join. */
module PathSpec {
  import opened Bytes

  const MAX_PATH: nat := 256            // FILEIO_MAX_PATH_LENGTH
  const BUFFER_SIZE: nat := 2 * MAX_PATH // the working buffer, and the output buffer of fileio_build_full_path

  function Slashes(s: string): (r: string)
    ensures |r| == |s|
  {
    seq(|s|, i requires 0 <= i < |s| => if s[i] == '\\' then '/' else s[i])
  }

  /** How far the first segment reaches. */
  function Reach(s: string): (n: nat)
    ensures n <= |s|
  {
    if s == "" || s[0] == '/' then 0 else 1 + Reach(s[1..])
  }

  /** The non-empty pieces between slashes. */
  function Segments(s: string): seq<string>
    decreases |s|
  {
    if s == "" then []
    else if s[0] == '/' then Segments(s[1..])
    else [s[..Reach(s)]] + Segments(s[Reach(s)..])
  }

  function Join(st: seq<string>): string {
    if st == [] then ""
    else if |st| == 1 then st[0]
    else Join(st[..|st| - 1]) + "/" + st[|st| - 1]
  }

  /** One segment against the stack of segments kept so far; None pops below the root. */
  function Push(st: seq<string>, seg: string): Option<seq<string>> {
    if seg == "." then Some(st)
    else if seg == ".." then if st == [] then None else Some(st[..|st| - 1])
    else Some(st + [seg])
  }

  function Reduce(st: seq<string>, segs: seq<string>): Option<seq<string>>
    decreases |segs|
  {
    if segs == [] then Some(st) else
    match Push(st, segs[0])
    case None => None
    case Some(t) => Reduce(t, segs[1..])
  }

  /** Push with the two guards of the code, MAX_PATH marks and an output of `capacity` bytes. */
  function PushWithin(st: seq<string>, seg: string, capacity: nat): Option<seq<string>> {
    match Push(st, seg)
    case None => None
    case Some(t) => if |t| > |st| && (|t| > MAX_PATH || |Join(t)| >= capacity) then None else Some(t)
  }

  /** Reduction in a stack of MAX_PATH marks and an output of `capacity` bytes, as the code runs it. */
  function ReduceWithin(st: seq<string>, segs: seq<string>, capacity: nat): Option<seq<string>>
    decreases |segs|
  {
    if segs == [] then Some(st) else
    match PushWithin(st, segs[0], capacity)
    case None => None
    case Some(t) => ReduceWithin(t, segs[1..], capacity)
  }

  predicate Absolute(s: string) {
    s != "" && (s[0] == '/' || s[0] == '\\')
  }

  function Finish(st: Option<seq<string>>, allowEmpty: bool): Option<string> {
    if st.None? || (st.value == [] && !allowEmpty) then None else Some(Join(st.value))
  }

  /** What the code computes for any output size. */
  function NormalizeWithin(input: string, capacity: nat, allowEmpty: bool): Option<string> {
    if capacity == 0 || |input| >= BUFFER_SIZE || Absolute(input) || ':' in input then None
    else Finish(ReduceWithin([], Segments(Slashes(input)), capacity), allowEmpty)
  }

  /** What it is for: split, reduce, join, with no buffer in sight. */
  function Normalize(input: string, allowEmpty: bool): Option<string> {
    if |input| >= BUFFER_SIZE || Absolute(input) || ':' in input then None
    else Finish(Reduce([], Segments(Slashes(input))), allowEmpty)
  }

  // ---------- pieces -------------------------------------------------------

  predicate PlainChar(c: char) {
    c != '/' && c != '\\' && c != ':'
  }

  /** A segment that a reduced path may keep. */
  predicate Plain(seg: string) {
    seg != "" && seg != "." && seg != ".." && forall i :: 0 <= i < |seg| ==> PlainChar(seg[i])
  }

  predicate AllPlain(st: seq<string>) {
    forall i :: 0 <= i < |st| ==> Plain(st[i])
  }

  predicate NonEmpty(st: seq<string>) {
    forall i :: 0 <= i < |st| ==> st[i] != ""
  }

  lemma {:induction false} ReachMeans(s: string)
    ensures forall i :: 0 <= i < Reach(s) ==> s[i] != '/'
    ensures Reach(s) < |s| ==> s[Reach(s)] == '/'
    ensures s != "" && s[0] != '/' ==> Reach(s) > 0
  {
    if s != "" && s[0] != '/' { ReachMeans(s[1..]); }
  }

  lemma {:induction false} ReachIs(s: string, n: nat)
    requires n <= |s| && (forall i :: 0 <= i < n ==> s[i] != '/') && (n < |s| ==> s[n] == '/')
    ensures Reach(s) == n
  {
    if n > 0 { ReachIs(s[1..], n - 1); }
  }

  lemma {:induction false} SegmentsConcat(a: string, b: string)
    ensures Segments(a + "/" + b) == Segments(a) + Segments(b)
    decreases |a|
  {
    var s := a + "/" + b;
    if a == "" {
      assert s[1..] == b;
    } else if a[0] == '/' {
      assert s[1..] == a[1..] + "/" + b;
      SegmentsConcat(a[1..], b);
    } else {
      var n := Reach(a);
      ReachMeans(a);
      ReachIs(s, n);
      assert s[..n] == a[..n] && s[n..] == a[n..] + "/" + b;
      SegmentsConcat(a[n..], b);
    }
  }

  lemma {:induction false} SegmentsOne(seg: string)
    requires seg != "" && '/' !in seg
    ensures Segments(seg) == [seg]
  {
    ReachIs(seg, |seg|);
    assert seg[..|seg|] == seg && seg[|seg|..] == "";
  }

  /** Splitting undoes joining. */
  lemma {:induction false} SegmentsOfJoin(st: seq<string>)
    requires AllPlain(st)
    ensures Segments(Join(st)) == st
  {
    if st == [] {
    } else {
      var init, last := st[..|st| - 1], st[|st| - 1];
      assert '/' !in last;
      SegmentsOne(last);
      if |st| > 1 {
        SegmentsOfJoin(init);
        SegmentsConcat(Join(init), last);
        assert init + [last] == st;
      } else {
        assert st == [last];
      }
    }
  }

  /** Where segments come from: they are non-empty and hold no slash and no character that the text does not hold. */
  lemma {:induction false} SegmentsClean(s: string)
    ensures forall i, j :: 0 <= i < |Segments(s)| && 0 <= j < |Segments(s)[i]| ==>
      Segments(s)[i][j] != '/' && Segments(s)[i][j] in s
    ensures NonEmpty(Segments(s))
    decreases |s|
  {
    if s == "" {
    } else if s[0] == '/' {
      SegmentsClean(s[1..]);
    } else {
      var n := Reach(s);
      ReachMeans(s);
      SegmentsClean(s[n..]);
      var tail := Segments(s[n..]);
      forall i, j | 0 <= i < |Segments(s)| && 0 <= j < |Segments(s)[i]|
        ensures Segments(s)[i][j] != '/' && Segments(s)[i][j] in s
      {
        if i == 0 { assert Segments(s)[0][j] == s[j]; } else { assert Segments(s)[i] == tail[i - 1]; }
      }
      forall i | 0 <= i < |Segments(s)| ensures Segments(s)[i] != "" {
        if i > 0 { assert Segments(s)[i] == tail[i - 1]; }
      }
    }
  }

  /** The room that a stack takes with a separator or a NUL after every segment. */
  function Room(st: seq<string>): nat {
    if st == [] then 0 else |st[0]| + 1 + Room(st[1..])
  }

  lemma {:induction false} RoomConcat(a: seq<string>, b: seq<string>)
    ensures Room(a + b) == Room(a) + Room(b)
  {
    if a == [] {
      assert a + b == b;
    } else {
      assert (a + b)[1..] == a[1..] + b;
      RoomConcat(a[1..], b);
    }
  }

  lemma {:induction false} JoinRoom(st: seq<string>)
    ensures |Join(st)| == if st == [] then 0 else Room(st) - 1
  {
    if |st| > 1 {
      var init, last := st[..|st| - 1], st[|st| - 1];
      JoinRoom(init);
      RoomConcat(init, [last]);
      assert init + [last] == st;
    } else if |st| == 1 {
      assert st[1..] == [];
    }
  }

  /** The pieces of a text with a separator after each take at most one character more than the text. */
  lemma {:induction false} SegmentsRoom(s: string)
    ensures Room(Segments(s)) <= |s| + 1
    ensures s == "" || s[0] == '/' ==> Room(Segments(s)) <= |s|
    decreases |s|
  {
    if s == "" {
    } else if s[0] == '/' {
      SegmentsRoom(s[1..]);
    } else {
      var n := Reach(s);
      ReachMeans(s);
      SegmentsRoom(s[n..]);
      assert Segments(s)[1..] == Segments(s[n..]);
    }
  }

  lemma {:induction false} RoomCount(st: seq<string>)
    requires NonEmpty(st)
    ensures 2 * |st| <= Room(st)
  {
    if st != [] { RoomCount(st[1..]); }
  }

  /** A prefix of the stack joins to a prefix of the text. */
  lemma {:induction false} JoinPrefix(st: seq<string>, n: nat)
    requires n <= |st|
    ensures Join(st[..n]) <= Join(st)
  {
    if n < |st| {
      var init := st[..|st| - 1];
      JoinPrefix(init, n);
      assert init[..n] == st[..n];
      if |st| == 1 { assert st[..n] == []; }
    } else {
      assert st[..n] == st;
    }
  }

  // ---------- the guards ---------------------------------------------------

  lemma {:induction false} ReduceWithoutGuards(st: seq<string>, segs: seq<string>, capacity: nat)
    requires Room(st) + Room(segs) <= capacity && |st| + |segs| <= MAX_PATH
    ensures ReduceWithin(st, segs, capacity) == Reduce(st, segs)
    decreases |segs|
  {
    if segs != [] && Push(st, segs[0]).Some? {
      var t := Push(st, segs[0]).value;
      if segs[0] == "." {
      } else if segs[0] == ".." {
        RoomConcat(t, [st[|st| - 1]]);
        assert t + [st[|st| - 1]] == st;
      } else {
        RoomConcat(st, [segs[0]]);
        assert [segs[0]][1..] == [];
        JoinRoom(t);
      }
      ReduceWithoutGuards(t, segs[1..], capacity);
    }
  }

  /** With the 512-byte output that every caller passes, neither the depth guard nor the capacity guard can fire. */
  lemma GuardsNeverFire(input: string, allowEmpty: bool)
    ensures NormalizeWithin(input, BUFFER_SIZE, allowEmpty) == Normalize(input, allowEmpty)
  {
    if |input| < BUFFER_SIZE {
      var segs := Segments(Slashes(input));
      SegmentsRoom(Slashes(input));
      SegmentsClean(Slashes(input));
      RoomCount(segs);
      ReduceWithoutGuards([], segs, BUFFER_SIZE);
    }
  }

  // ---------- when normalisation succeeds ----------------------------------

  function Weight(seg: string): int {
    if seg == "." then 0 else if seg == ".." then -1 else 1
  }

  /** How many levels a list of segments goes down, less those it goes up. */
  function Net(segs: seq<string>): int {
    if segs == [] then 0 else Weight(segs[0]) + Net(segs[1..])
  }

  /** No prefix of the segments goes up more often than down. */
  ghost predicate StaysInside(depth: nat, segs: seq<string>) {
    forall i :: 0 <= i <= |segs| ==> depth + Net(segs[..i]) >= 0
  }

  lemma InsideStep(depth: nat, segs: seq<string>)
    requires segs != []
    ensures StaysInside(depth, segs) <==>
            depth + Weight(segs[0]) >= 0 && StaysInside(depth + Weight(segs[0]), segs[1..])
  {
    var w := Weight(segs[0]);
    forall i | 1 <= i <= |segs| ensures Net(segs[..i]) == w + Net(segs[1..][..i - 1]) {
      assert segs[..i][1..] == segs[1..][..i - 1];
    }
    if StaysInside(depth, segs) {
      assert Net(segs[..1]) == w + Net(segs[1..][..0]);
      assert segs[1..][..0] == [];
      forall i | 0 <= i <= |segs[1..]| ensures depth + w + Net(segs[1..][..i]) >= 0 {
        assert Net(segs[..i + 1]) == w + Net(segs[1..][..i]);
      }
    }
    if depth + w >= 0 && StaysInside(depth + w, segs[1..]) {
      forall i | 0 <= i <= |segs| ensures depth + Net(segs[..i]) >= 0 {
        if i > 0 { assert depth + w + Net(segs[1..][..i - 1]) >= 0; }
      }
    }
  }

  lemma {:induction false} ReduceInside(st: seq<string>, segs: seq<string>)
    ensures Reduce(st, segs).Some? <==> StaysInside(|st|, segs)
    ensures Reduce(st, segs).Some? ==> |Reduce(st, segs).value| == |st| + Net(segs)
    decreases |segs|
  {
    if segs == [] {
      assert segs[..0] == [];
    } else {
      InsideStep(|st|, segs);
      if Push(st, segs[0]).Some? { ReduceInside(Push(st, segs[0]).value, segs[1..]); }
    }
  }

  /**
   Normalisation of an input succeeds exactly when the input is short enough, relative and without a colon, when no
   prefix of its segments leaves the root, and when something is left or nothing is allowed.
   */
  lemma NormalizeSucceeds(input: string, allowEmpty: bool)
    ensures var segs := Segments(Slashes(input));
            NormalizeWithin(input, BUFFER_SIZE, allowEmpty).Some? <==>
              && |input| < 512 && !Absolute(input) && ':' !in input
              && StaysInside(0, segs) && (allowEmpty || Net(segs) > 0)
  {
    GuardsNeverFire(input, allowEmpty);
    ReduceInside([], Segments(Slashes(input)));
  }

  // ---------- what comes out -----------------------------------------------

  ghost predicate Clean(segs: seq<string>) {
    NonEmpty(segs) && forall i, j :: 0 <= i < |segs| && 0 <= j < |segs[i]| ==> PlainChar(segs[i][j])
  }

  lemma {:induction false} ReducePlain(st: seq<string>, segs: seq<string>)
    requires AllPlain(st) && Clean(segs)
    ensures Reduce(st, segs).Some? ==> AllPlain(Reduce(st, segs).value)
    decreases |segs|
  {
    if segs != [] && Push(st, segs[0]).Some? { ReducePlain(Push(st, segs[0]).value, segs[1..]); }
  }

  lemma InputClean(input: string)
    requires ':' !in input
    ensures Clean(Segments(Slashes(input)))
  {
    var s := Slashes(input);
    SegmentsClean(s);
    forall c | c in s ensures c != '\\' && c != ':' {
      var i :| 0 <= i < |s| && s[i] == c;
      assert c == input[i] || c == '/';
    }
  }

  /** A reduced stack is a fixed point of reduction. */
  lemma {:induction false} ReducePlainStack(st: seq<string>, segs: seq<string>)
    requires AllPlain(segs)
    ensures Reduce(st, segs) == Some(st + segs)
    decreases |segs|
  {
    if segs == [] {
      assert st + segs == st;
    } else {
      ReducePlainStack(st + [segs[0]], segs[1..]);
      assert st + [segs[0]] + segs[1..] == st + segs;
    }
  }

  lemma {:induction false} ReduceConcat(st: seq<string>, a: seq<string>, b: seq<string>)
    ensures Reduce(st, a + b) == if Reduce(st, a).None? then None else Reduce(Reduce(st, a).value, b)
    decreases |a|
  {
    if a == [] {
      assert a + b == b;
    } else {
      assert (a + b)[1..] == a[1..] + b;
      if Push(st, a[0]).Some? { ReduceConcat(Push(st, a[0]).value, a[1..], b); }
    }
  }

  lemma {:induction false} JoinChars(st: seq<string>)
    requires AllPlain(st)
    ensures forall i :: 0 <= i < |Join(st)| ==> Join(st)[i] != '\\' && Join(st)[i] != ':'
    ensures st != [] ==> Join(st) != "" && Join(st)[0] == st[0][0]
  {
    if |st| > 1 { JoinChars(st[..|st| - 1]); }
  }

  lemma SlashesIdentity(s: string)
    requires forall i :: 0 <= i < |s| ==> s[i] != '\\'
    ensures Slashes(s) == s
  {
  }

  /** The joined text of a plain stack is relative, colon-free, and splits into the stack again. */
  lemma JoinNormal(st: seq<string>)
    requires AllPlain(st)
    ensures !Absolute(Join(st)) && ':' !in Join(st) && Segments(Slashes(Join(st))) == st
    ensures Reduce([], st) == Some(st)
    ensures Join(st) == "" <==> st == []
  {
    JoinChars(st);
    SlashesIdentity(Join(st));
    SegmentsOfJoin(st);
    ReducePlainStack([], st);
    assert [] + st == st;
    if st != [] { assert PlainChar(st[0][0]); }
  }

  /** The reduced stack behind a success. */
  lemma Reduced(input: string, allowEmpty: bool) returns (st: seq<string>)
    requires Normalize(input, allowEmpty).Some?
    ensures Reduce([], Segments(Slashes(input))) == Some(st) && AllPlain(st)
    ensures Normalize(input, allowEmpty) == Some(Join(st)) && |Join(st)| <= |input|
  {
    var segs := Segments(Slashes(input));
    st := Reduce([], segs).value;
    InputClean(input);
    ReducePlain([], segs);
    SegmentsRoom(Slashes(input));
    ReduceRoom([], segs);
    JoinRoom(st);
  }

  lemma {:induction false} ReduceRoom(st: seq<string>, segs: seq<string>)
    ensures Reduce(st, segs).Some? ==> Room(Reduce(st, segs).value) <= Room(st) + Room(segs)
    decreases |segs|
  {
    if segs != [] && Push(st, segs[0]).Some? {
      var t := Push(st, segs[0]).value;
      if segs[0] == ".." {
        RoomConcat(t, [st[|st| - 1]]);
        assert t + [st[|st| - 1]] == st;
      } else if segs[0] != "." {
        RoomConcat(st, [segs[0]]);
        assert [segs[0]][1..] == [];
      }
      ReduceRoom(t, segs[1..]);
    }
  }

  /** Normalising a result changes nothing. */
  lemma Idempotent(input: string, allowEmpty: bool)
    requires Normalize(input, allowEmpty).Some?
    ensures Normalize(Normalize(input, allowEmpty).value, allowEmpty) == Normalize(input, allowEmpty)
  {
    var st := Reduced(input, allowEmpty);
    JoinNormal(st);
  }

  /**
   A path may be normalised piece by piece: when a normalises to a non-empty A, then a/b and A/b give the same result,
   or fail alike, for every b that keeps a/b within the length limit.
   */
  lemma Compositional(a: string, b: string, allowA: bool, allowEmpty: bool)
    requires Normalize(a, allowA).Some? && Normalize(a, allowA).value != "" && |a + "/" + b| < BUFFER_SIZE
    ensures Normalize(a + "/" + b, allowEmpty) == Normalize(Normalize(a, allowA).value + "/" + b, allowEmpty)
  {
    var st := Reduced(a, allowA);
    var A := Join(st);
    JoinNormal(st);
    JoinSlashes(a, b);
    JoinSlashes(A, b);
    SegmentsConcat(Slashes(a), Slashes(b));
    SegmentsConcat(Slashes(A), Slashes(b));
    ReduceConcat([], Segments(Slashes(a)), Segments(Slashes(b)));
    ReduceConcat([], st, Segments(Slashes(b)));
    NotAbsolute(a, b, allowA);
    Colons(a, b);
    Colons(A, b);
  }

  lemma JoinSlashes(a: string, b: string)
    ensures Slashes(a + "/" + b) == Slashes(a) + "/" + Slashes(b)
  {
  }

  lemma Colons(a: string, b: string)
    ensures ':' in a + "/" + b <==> ':' in a || ':' in b
  {
  }

  /** The empty path normalises to nothing, so what normalises to something starts with a character of its own. */
  lemma NotAbsolute(a: string, b: string, allowA: bool)
    requires Normalize(a, allowA).Some? && Normalize(a, allowA).value != ""
    ensures !Absolute(a + "/" + b)
  {
    assert Slashes("") == "";
  }
}
