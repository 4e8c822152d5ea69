/** The one-pass normaliser of the source: a segment stack kept as offsets into the output. */
module PathNormalizer {
  import opened Bytes
  import opened PathSpec

  /** What the three arrays and two counters stand for while the loop runs. */
  ghost predicate Represents(output: array<char>, marks: array<nat>, depth: nat, outLen: nat, st: seq<string>)
    reads output, marks
  {
    && depth == |st| <= MAX_PATH <= marks.Length && NonEmpty(st)
    && outLen == |Join(st)| < output.Length
    && output[..outLen] == Join(st) && output[outLen] == NUL
    && forall i :: 0 <= i < depth ==> marks[i] == |Join(st[..i])|
  }

  lemma {:induction false} JoinEmpty(st: seq<string>)
    requires NonEmpty(st)
    ensures Join(st) == "" <==> st == []
  {
  }

  /** Going up one level: the output is cut back to the last mark. */
  method Pop(output: array<char>, marks: array<nat>, depth: nat, outLen: nat, ghost st: seq<string>)
    returns (depth': nat, outLen': nat)
    requires Represents(output, marks, depth, outLen, st) && depth > 0
    modifies output
    ensures Represents(output, marks, depth', outLen', st[..|st| - 1])
  {
    depth' := depth - 1;
    ghost var t := st[..depth'];
    JoinPrefix(st, depth');
    outLen' := marks[depth'];
    assert output[..outLen'] == output[..outLen][..outLen'] == Join(t);
    output[outLen'] := NUL;
    assert forall i :: 0 <= i < depth' ==> t[..i] == st[..i];
  }

  /** One more segment: a mark, a separator unless it is the first, and a copy of the segment, if there is room. */
  method Append(output: array<char>, marks: array<nat>, depth: nat, outLen: nat,
                temp: array<char>, start: nat, segLen: nat, ghost st: seq<string>)
    returns (ok: bool, outLen': nat)
    requires Represents(output, marks, depth, outLen, st) && depth < MAX_PATH && output != temp
    requires segLen > 0 && start + segLen <= temp.Length
    modifies output, marks
    ensures var t := st + [temp[start..start + segLen]];
            && ok == (|Join(t)| < output.Length)
            && (ok ==> Represents(output, marks, depth + 1, outLen', t))
  {
    ghost var seg := temp[start..start + segLen];
    ghost var t := st + [seg];
    assert t[..depth] == st;
    JoinEmpty(st);
    marks[depth] := outLen;
    outLen' := outLen;
    if outLen != 0 {
      if outLen + 1 >= output.Length { return false, outLen'; }
      output[outLen] := '/';
      outLen' := outLen + 1;
    }
    if outLen' + segLen >= output.Length { return false, outLen'; }
    ghost var head := output[..outLen'];
    Memcpy(output, outLen', temp, start, segLen);
    outLen' := outLen' + segLen;
    output[outLen'] := NUL;
    assert output[..outLen'] == head + seg;
    assert head == if st == [] then "" else Join(st) + "/";
    assert forall i :: 0 <= i <= depth ==> t[..i] == st[..i];
    return true, outLen';
  }

  /** The bytes of s and a NUL at the start of a buffer. */
  ghost predicate Starts(buf: array<char>, s: string)
    reads buf
  {
    |s| < buf.Length && buf[..|s|] == s && buf[|s|] == NUL
  }

  /** A NUL-terminated string in a char buffer. */
  ghost predicate Holds(buf: array<char>, s: string)
    reads buf
  {
    Starts(buf, s) && NUL !in s
  }

  /** strcpy. */
  method CopyIn(buf: array<char>, s: string)
    requires |s| < buf.Length && NUL !in s
    modifies buf
    ensures Holds(buf, s)
  {
    for i := 0 to |s|
      invariant buf[..i] == s[..i]
    {
      buf[i] := s[i];
    }
    buf[|s|] := NUL;
  }

  predicate IsAlpha(c: char) {
    'a' <= c <= 'z' || 'A' <= c <= 'Z'
  }

  /** Every backslash becomes a slash, in place. */
  method FlipSlashes(buf: array<char>, ghost s: string)
    requires Holds(buf, s)
    modifies buf
    ensures Holds(buf, Slashes(s))
  {
    var i := 0;
    while buf[i] != NUL
      invariant i <= |s| && buf[|s|] == NUL
      invariant forall k :: 0 <= k < |s| ==> buf[k] == if k < i then Slashes(s)[k] else s[k]
      decreases |s| - i
    {
      if buf[i] == '\\' { buf[i] := '/'; }
      i := i + 1;
    }
    assert buf[..|s|] == Slashes(s);
  }

  lemma HoldsAt(buf: array<char>, s: string, i: nat)
    requires Holds(buf, s) && i <= |s|
    ensures i < |s| ==> buf[i] == s[i] && buf[i] != NUL
    ensures i == |s| ==> buf[i] == NUL
  {
    if i < |s| { assert buf[i] == buf[..|s|][i]; }
  }

  lemma HoldsSlice(buf: array<char>, s: string, i: nat, j: nat)
    requires Holds(buf, s) && i <= j <= |s|
    ensures buf[i..j] == s[i..j]
  {
    assert buf[..|s|][i..j] == buf[i..j];
  }

  /** The first inner scan: past the slashes. */
  method SkipSlashes(temp: array<char>, from: nat, ghost s: string) returns (p: nat)
    requires Holds(temp, s) && from <= |s|
    ensures from <= p <= |s| && Segments(s[from..]) == Segments(s[p..]) && (p < |s| ==> s[p] != '/')
  {
    p := from;
    HoldsAt(temp, s, p);
    while temp[p] == '/'
      invariant from <= p <= |s| && Segments(s[from..]) == Segments(s[p..])
      invariant p < |s| ==> temp[p] == s[p]
      invariant p == |s| ==> temp[p] == NUL
      decreases |s| - p
    {
      assert s[p..][0] == '/' && s[p..][1..] == s[p + 1..];
      p := p + 1;
      HoldsAt(temp, s, p);
    }
  }

  /** The second inner scan: over one segment. */
  method ScanSegment(temp: array<char>, start: nat, ghost s: string) returns (p: nat)
    requires Holds(temp, s) && start < |s| && s[start] != '/'
    ensures start < p <= |s| && Reach(s[start..]) == p - start
  {
    p := start;
    HoldsAt(temp, s, p);
    while temp[p] != NUL && temp[p] != '/'
      invariant start <= p <= |s| && (p == start ==> temp[p] == s[start])
      invariant forall k :: start <= k < p ==> s[k] != '/'
      invariant p < |s| ==> temp[p] == s[p] && temp[p] != NUL
      invariant p == |s| ==> temp[p] == NUL
      decreases |s| - p
    {
      p := p + 1;
      HoldsAt(temp, s, p);
    }
    ghost var rest := s[start..];
    assert forall k :: 0 <= k < p - start ==> rest[k] == s[start + k];
    ReachIs(rest, p - start);
  }

  lemma SegmentsStep(s: string, start: nat, p: nat)
    requires start < p <= |s| && s[start] != '/' && Reach(s[start..]) == p - start
    ensures Segments(s[start..]) == [s[start..p]] + Segments(s[p..])
  {
    var rest := s[start..];
    assert rest[..p - start] == s[start..p] && rest[p - start..] == s[p..];
  }

  /** The comparisons with "." and "..". */
  predicate IsDots(temp: array<char>, start: nat, segLen: nat, dots: nat)
    requires start + segLen <= temp.Length && 1 <= dots <= 2
    reads temp
  {
    segLen == dots && temp[start] == '.' && (dots == 2 ==> temp[start + 1] == '.')
  }

  lemma IsDotsMeans(temp: array<char>, start: nat, segLen: nat, seg: string)
    requires start + segLen <= temp.Length && seg == temp[start..start + segLen]
    ensures IsDots(temp, start, segLen, 1) <==> seg == "."
    ensures IsDots(temp, start, segLen, 2) <==> seg == ".."
  {
    if segLen == 1 { assert seg == [temp[start]]; }
    if segLen == 2 { assert seg == [temp[start], temp[start + 1]]; }
  }

  /** The body of the loop once a segment has been scanned. */
  method TakeSegment(output: array<char>, marks: array<nat>, depth: nat, outLen: nat,
                     temp: array<char>, start: nat, segLen: nat, ghost st: seq<string>, ghost seg: string)
    returns (ok: bool, depth': nat, outLen': nat)
    requires Represents(output, marks, depth, outLen, st) && output != temp
    requires segLen > 0 && start + segLen <= temp.Length && seg == temp[start..start + segLen]
    modifies output, marks
    ensures var t := PushWithin(st, seg, output.Length);
            ok == t.Some? && (ok ==> Represents(output, marks, depth', outLen', t.value))
  {
    IsDotsMeans(temp, start, segLen, seg);
    ok, depth', outLen' := true, depth, outLen;
    if IsDots(temp, start, segLen, 1) { return; }
    if IsDots(temp, start, segLen, 2) {
      if depth == 0 { ok := false; return; }
      depth', outLen' := Pop(output, marks, depth, outLen, st);
      return;
    }
    if depth >= MAX_PATH { ok := false; return; }
    ok, outLen' := Append(output, marks, depth, outLen, temp, start, segLen, st);
    depth' := depth + 1;
  }

  /** What is left to do in the loop, whatever its outcome. */
  ghost predicate Remains(whole: Option<seq<string>>, st: seq<string>, rest: string, capacity: nat) {
    whole == ReduceWithin(st, Segments(rest), capacity)
  }

  lemma RemainsStep(whole: Option<seq<string>>, st: seq<string>, rest: string, seg: string, rest': string,
                    capacity: nat)
    requires Remains(whole, st, rest, capacity) && Segments(rest) == [seg] + Segments(rest')
    ensures var t := PushWithin(st, seg, capacity);
            if t.None? then whole == None else Remains(whole, t.value, rest', capacity)
  {
    assert Segments(rest)[1..] == Segments(rest');
  }

  /** Both scans: the next segment of the text, if there is one. */
  method NextSegment(temp: array<char>, from: nat, ghost s: string) returns (found: bool, start: nat, p: nat)
    requires Holds(temp, s) && from <= |s|
    ensures from <= start <= p <= |s|
    ensures if found then start < p && Segments(s[from..]) == [temp[start..p]] + Segments(s[p..])
            else Segments(s[from..]) == []
  {
    start := SkipSlashes(temp, from, s);
    p := start;
    HoldsAt(temp, s, start);
    if temp[start] == NUL { return false, start, p; }
    p := ScanSegment(temp, start, s);
    SegmentsStep(s, start, p);
    HoldsSlice(temp, s, start, p);
    found := true;
  }

  datatype Progress = Working | Finished | Failed

  /** One round of the loop: the next segment is taken, or the text is at its end. */
  method Round(temp: array<char>, output: array<char>, marks: array<nat>, depth: nat, outLen: nat, p: nat,
               ghost s: string, ghost st: seq<string>, ghost whole: Option<seq<string>>)
    returns (r: Progress, depth': nat, outLen': nat, p': nat, ghost st': seq<string>)
    requires Holds(temp, s) && p <= |s| && output != temp
    requires Represents(output, marks, depth, outLen, st) && Remains(whole, st, s[p..], output.Length)
    modifies output, marks
    ensures p' <= |s|
    ensures match r
            case Failed => whole == None
            case Finished => Represents(output, marks, depth', outLen', st') && whole == Some(st')
            case Working =>
              && p < p' && Represents(output, marks, depth', outLen', st')
              && Remains(whole, st', s[p'..], output.Length)
  {
    depth', outLen', st' := depth, outLen, st;
    var found, start;
    found, start, p' := NextSegment(temp, p, s);
    if !found { return Finished, depth', outLen', p', st'; }
    ghost var seg := temp[start..p'];
    RemainsStep(whole, st, s[p..], seg, s[p'..], output.Length);
    ghost var t := PushWithin(st, seg, output.Length);
    var ok;
    ok, depth', outLen' := TakeSegment(output, marks, depth, outLen, temp, start, p' - start, st, seg);
    if !ok { return Failed, depth', outLen', p', st'; }
    st' := t.value;
    r := Working;
  }

  /** fileio_normalize_relpath, from the first segment on: reduction with the stack in marks and output. */
  method ReduceInto(temp: array<char>, output: array<char>, ghost s: string) returns (rc: int, outLen: nat)
    requires Holds(temp, s) && output.Length > 0 && output != temp && output[0] == NUL
    modifies output
    ensures var r := ReduceWithin([], Segments(s), output.Length);
            && rc == (if r.Some? then 0 else -1)
            && (rc == 0 ==> NonEmpty(r.value) && outLen == |Join(r.value)| && Starts(output, Join(r.value)))
  {
    var marks := new nat[MAX_PATH];
    var depth: nat, p: nat := 0, 0;
    outLen := 0;
    ghost var st: seq<string> := [];
    ghost var whole := ReduceWithin([], Segments(s), output.Length);
    assert s[0..] == s;
    HoldsAt(temp, s, p);
    var r := if temp[p] != NUL then Working else Finished;
    while r == Working
      invariant p <= |s| && Holds(temp, s)
      invariant r != Failed ==> Represents(output, marks, depth, outLen, st)
      invariant match r
        case Working => Remains(whole, st, s[p..], output.Length)
        case Finished => whole == Some(st)
        case Failed => whole == None
      decreases r == Working, |s| - p
    {
      r, depth, outLen, p, st := Round(temp, output, marks, depth, outLen, p, s, st, whole);
      if r == Working {
        HoldsAt(temp, s, p);
        if temp[p] == NUL { r := Finished; }
      }
    }
    rc := if r == Failed then -1 else 0;
  }

  /** fileio_normalize_relpath on a C string and an output buffer of any size. */
  method NormalizeRelpath(input: string, output: array<char>, allowEmpty: bool) returns (rc: int)
    requires NUL !in input
    modifies output
    ensures var r := NormalizeWithin(input, output.Length, allowEmpty);
            rc == (if r.Some? then 0 else -1) && (rc == 0 ==> Starts(output, r.value))
  {
    if output.Length == 0 { return -1; }
    if |input| >= BUFFER_SIZE { return -1; }
    var temp := new char[BUFFER_SIZE];
    CopyIn(temp, input);
    HoldsAt(temp, input, 0);
    if temp[0] == '/' || temp[0] == '\\' { return -1; }
    if (IsAlpha(temp[0]) && temp[1] == ':') || ':' in temp[..|input|] {
      assert IsAlpha(temp[0]) ==> |input| > 0 && temp[1] in input + [NUL] by {
        if |input| > 0 { HoldsAt(temp, input, 1); }
      }
      return -1;
    }
    FlipSlashes(temp, input);
    output[0] := NUL;
    var outLen;
    rc, outLen := ReduceInto(temp, output, Slashes(input));
    if rc != 0 { return; }
    JoinEmpty(ReduceWithin([], Segments(Slashes(input)), output.Length).value);
    if !allowEmpty && outLen == 0 { return -1; }
  }

  /** The call in fileio_build_full_path: its 512-byte buffer holds whatever normalisation yields. */
  method NormalizeForMount(path: string, allowEmpty: bool) returns (rc: int, normalized: array<char>)
    requires NUL !in path
    ensures var r := Normalize(path, allowEmpty);
            rc == (if r.Some? then 0 else -1) && (rc == 0 ==> Starts(normalized, r.value))
  {
    normalized := new char[BUFFER_SIZE];
    rc := NormalizeRelpath(path, normalized, allowEmpty);
    GuardsNeverFire(path, allowEmpty);
  }
}
