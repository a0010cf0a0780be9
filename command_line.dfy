/** `ellipsify` of __main__.py: the executable's path as the usage line shows it, with a
    long middle part cut down to its first and last six characters. */
module CommandLine {
  predicate SlashFree(p: string)
  {
    '/' !in p
  }

  /** `"/".join(parts)`. */
  function Join(parts: seq<string>): string
  {
    if parts == [] then ""
    else if |parts| == 1 then parts[0]
    else parts[0] + "/" + Join(parts[1..])
  }

  /** `s.split("/")`: the pieces between the slashes, always at least one. */
  function Split(s: string): (parts: seq<string>)
    ensures |parts| >= 1
    ensures forall i :: 0 <= i < |parts| ==> SlashFree(parts[i])
    ensures Join(parts) == s
  {
    if s == [] then [""]
    else
      var rest := Split(s[1..]);
      if s[0] == '/' then
        assert Join([""] + rest) == "" + "/" + Join(rest);
        [""] + rest
      else
        var parts := [[s[0]] + rest[0]] + rest[1..];
        assert parts[1..] == rest[1..];
        assert rest == [rest[0]] + rest[1..];
        parts
  }

  /** Splitting what was joined gives the slash-free pieces back. */
  lemma {:induction false} SplitJoin(parts: seq<string>)
    requires |parts| >= 1 && forall i :: 0 <= i < |parts| ==> SlashFree(parts[i])
    ensures Split(Join(parts)) == parts
    decreases |parts|
  {
    if |parts| == 1 {
      SplitSlashFree(parts[0]);
    } else {
      SplitJoin(parts[1..]);
      SplitAround(parts[0], Join(parts[1..]));
      SplitSlashFree(parts[0]);
      assert parts == [parts[0]] + parts[1..];
    }
  }

  /** A slash-free string is a single piece. */
  lemma {:induction false} SplitSlashFree(p: string)
    requires SlashFree(p)
    ensures Split(p) == [p]
    decreases |p|
  {
    if p != [] {
      assert p[1..] == [] || p[1..][0] == p[1];
      SplitSlashFree(p[1..]);
      assert [p[0]] + p[1..] == p;
    }
  }

  /** A slash ends the pieces of the slash-free part before it. */
  lemma {:induction false} SplitAround(a: string, b: string)
    requires SlashFree(a)
    ensures Split(a + "/" + b) == [a] + Split(b)
    decreases |a|
  {
    var s := a + "/" + b;
    if a == [] {
      assert s == "/" + b && s[1..] == b;
    } else {
      assert s[0] == a[0] && s[1..] == a[1..] + "/" + b;
      SplitAround(a[1..], b);
      assert [a[0]] + a[1..] == a;
    }
  }

  /** The joined pieces with the first and last split off. */
  lemma {:induction false} JoinEnds(parts: seq<string>)
    requires |parts| >= 3
    ensures Join(parts) == parts[0] + "/" + Join(parts[1..|parts| - 1]) + "/" + parts[|parts| - 1]
    decreases |parts|
  {
    var n := |parts|;
    if n > 3 {
      JoinEnds(parts[1..]);
      assert parts[1..][1..n - 2] == parts[2..n - 1];
      assert parts[1..n - 1][1..] == parts[2..n - 1];
    } else {
      assert parts[1..2] == [parts[1]] && parts[1..][1..] == [parts[2]];
      assert Join(parts[1..]) == parts[1] + "/" + parts[2];
    }
  }

  /** `ellipsify`. */
  function Ellipsify(s: string): (r: string)
    ensures |r| <= |s|
    ensures |Split(s)| < 3 ==> r == s
    ensures r != s ==>
      |Split(s)| >= 3 && |Join(Split(s)[1..|Split(s)| - 1])| >= 16 &&
      |r| == |Split(s)[0]| + 17 + |Split(s)[|Split(s)| - 1]| && |r| < |s|
  {
    var parts := Split(s);
    if |parts| < 3 then s
    else
      var first, last := parts[0], parts[|parts| - 1];
      var body := Join(parts[1..|parts| - 1]);
      if |body| < 16 then s
      else
        JoinEnds(parts);
        var middle := body[..6] + "..." + body[|body| - 6..];
        first + "/" + middle + "/" + last
  }

  /** The shortened path keeps its first and last pieces, and its middle of 15 characters
      is the first six characters of the old middle, `...`, and its last six. */
  lemma EllipsifyKeepsEnds(s: string)
    requires Ellipsify(s) != s
    ensures
      var parts, outs := Split(s), Split(Ellipsify(s));
      var body := Join(parts[1..|parts| - 1]);
      outs[0] == parts[0] && outs[|outs| - 1] == parts[|parts| - 1] &&
      |body| >= 16 && Join(outs[1..|outs| - 1]) == body[..6] + "..." + body[|body| - 6..] &&
      |Join(outs[1..|outs| - 1])| == 15
  {
    var parts := Split(s);
    var body := Join(parts[1..|parts| - 1]);
    var middle := body[..6] + "..." + body[|body| - 6..];
    assert |parts| >= 3 && |body| >= 16;
    EllipsifyShape(s);
    ShortMiddle(body);
    var first, last := parts[0], parts[|parts| - 1];
    ShortenedSplit(first, middle, last);
    var outs := Split(Ellipsify(s));
    assert outs == Split(first + "/" + middle + "/" + last);
    assert outs[0] == first && outs[|outs| - 1] == last;
  }

  /** What a changed path is made of. */
  lemma EllipsifyShape(s: string)
    requires |Split(s)| >= 3 && |Join(Split(s)[1..|Split(s)| - 1])| >= 16
    ensures
      var parts := Split(s);
      var body := Join(parts[1..|parts| - 1]);
      Ellipsify(s) == parts[0] + "/" + (body[..6] + "..." + body[|body| - 6..]) + "/" + parts[|parts| - 1]
  {
  }

  /** The middle of a shortened path has 15 characters. */
  lemma ShortMiddle(body: string)
    requires |body| >= 16
    ensures |body[..6] + "..." + body[|body| - 6..]| == 15
  {
  }

  /** How `first/middle/last` splits when `first` and `last` are slash-free. */
  lemma ShortenedSplit(first: string, middle: string, last: string)
    requires SlashFree(first) && SlashFree(last)
    ensures
      var outs := Split(first + "/" + middle + "/" + last);
      outs == [first] + Split(middle) + [last] &&
      Join(outs[1..|outs| - 1]) == middle
  {
    assert first + "/" + middle + "/" + last == first + "/" + (middle + "/" + last);
    SplitAround(first, middle + "/" + last);
    SplitBeforeLast(middle, last);
    var outs := [first] + Split(middle) + [last];
    assert outs[1..|outs| - 1] == Split(middle);
  }

  /** A slash-free last part becomes the last piece. */
  lemma {:induction false} SplitBeforeLast(m: string, last: string)
    requires SlashFree(last)
    ensures Split(m + "/" + last) == Split(m) + [last]
    decreases |m|
  {
    var s := m + "/" + last;
    if m == [] {
      assert s == "/" + last && s[1..] == last;
      SplitSlashFree(last);
    } else {
      assert s[0] == m[0] && s[1..] == m[1..] + "/" + last;
      SplitBeforeLast(m[1..], last);
    }
  }

  /** Shortening a path twice is shortening it once: the middle it leaves is shorter than
      the 16 characters that trigger it. */
  lemma EllipsifyIdempotent(s: string)
    ensures Ellipsify(Ellipsify(s)) == Ellipsify(s)
  {
    if Ellipsify(s) != s {
      EllipsifyKeepsEnds(s);
    }
  }
}
