/** Python 2 byte strings (`str`) and the few operations the PLY code applies
    to them: the substring test `t in s`, `s.split(sep)` and `readline()` on a
    file opened in binary mode. `Find` and `Join` are this model's means of
    stating the first two; the code calls neither. */
module PyBytes {
  import opened Wrappers

  /** One byte. Header text and binary payload are both byte strings. */
  type Byte = c: char | c as int < 256 witness '\0'

  type Bytes = seq<Byte>

  const Newline: Bytes := "\n"

  /** `t` occurs in `s` starting at index `i`. */
  predicate OccursAt(s: Bytes, t: Bytes, i: nat)
  {
    i + |t| <= |s| && s[i..i + |t|] == t
  }

  /** Python's `t in s`. */
  predicate Contains(s: Bytes, t: Bytes)
  {
    exists i: nat | i <= |s| :: OccursAt(s, t, i)
  }

  /** The leftmost occurrence of `t` in `s` at or after `from`. */
  function FindFrom(s: Bytes, t: Bytes, from: nat): (r: Option<nat>)
    decreases |s| - from
    ensures r.Some? ==> from <= r.value && OccursAt(s, t, r.value)
    ensures r.Some? ==> forall j: nat :: from <= j < r.value ==> !OccursAt(s, t, j)
    ensures r.None? ==> forall j: nat :: from <= j ==> !OccursAt(s, t, j)
  {
    if from + |t| > |s| then None
    else if s[from..from + |t|] == t then Some(from)
    else FindFrom(s, t, from + 1)
  }

  /** The leftmost occurrence of `t` in `s`, if any. */
  function Find(s: Bytes, t: Bytes): (r: Option<nat>)
    ensures r.None? <==> !Contains(s, t)
    ensures r.Some? ==> OccursAt(s, t, r.value)
    ensures r.Some? ==> forall j: nat :: j < r.value ==> !OccursAt(s, t, j)
  {
    FindFrom(s, t, 0)
  }

  /** Python's `sep.join(pieces)`. */
  function Join(pieces: seq<Bytes>, sep: Bytes): Bytes
  {
    if |pieces| == 0 then []
    else if |pieces| == 1 then pieces[0]
    else pieces[0] + sep + Join(pieces[1..], sep)
  }

  /** Python's `b''.join(pieces)`. */
  function Concat(pieces: seq<Bytes>): Bytes
  {
    if |pieces| == 0 then [] else pieces[0] + Concat(pieces[1..])
  }

  /** Concatenation of byte strings is associative. */
  lemma BytesAssoc(a: Bytes, b: Bytes, c: Bytes)
    ensures (a + b) + c == a + (b + c)
  {
  }

  /** Writing one more piece extends the concatenation by that piece. */
  lemma {:induction false} ConcatAppend(pieces: seq<Bytes>, last: Bytes)
    ensures Concat(pieces + [last]) == Concat(pieces) + last
    decreases |pieces|
  {
    if |pieces| == 0 {
      assert [] + [last] == [last];
      assert [last][1..] == [];
    } else {
      assert (pieces + [last])[1..] == pieces[1..] + [last];
      ConcatAppend(pieces[1..], last);
    }
  }

  /** Python's `s.split(sep)` for a non-empty separator: the pieces between
      the non-overlapping occurrences of `sep`, scanned from the left. */
  function Split(s: Bytes, sep: Bytes): (r: seq<Bytes>)
    requires |sep| > 0
    decreases |s|
    ensures |r| >= 1
  {
    match Find(s, sep)
    case None => [s]
    case Some(i) => [s[..i]] + Split(s[i + |sep|..], sep)
  }

  /** Joining the pieces back with `sep` gives `s`, no piece contains `sep`,
      there is more than one piece exactly when `sep` occurs in `s`, and the
      first piece runs up to the first occurrence. */
  lemma {:induction false} SplitSpec(s: Bytes, sep: Bytes)
    requires |sep| > 0
    decreases |s|
    ensures var r := Split(s, sep);
      && Join(r, sep) == s
      && (forall k :: 0 <= k < |r| ==> !Contains(r[k], sep))
      && (|r| >= 2 <==> Contains(s, sep))
      && r[0] <= s && (|r| >= 2 ==> OccursAt(s, sep, |r[0]|))
      && (|r| >= 2 ==> Find(s, sep) == Some(|r[0]|))
  {
    SplitJoin(s, sep);
    SplitClean(s, sep);
    SplitPieces(s, sep);
    SplitFirst(s, sep);
  }

  /** Splitting at the first occurrence, at `i`. */
  lemma SplitSome(s: Bytes, sep: Bytes, i: nat)
    requires |sep| > 0 && Find(s, sep) == Some(i)
    ensures i + |sep| <= |s|
    ensures Split(s, sep) == [s[..i]] + Split(s[i + |sep|..], sep)
    ensures s == s[..i] + sep + s[i + |sep|..]
  {
    OccursAround(s, sep, i);
  }

  /** An occurrence cuts the string in three. */
  lemma OccursAround(s: Bytes, t: Bytes, i: nat)
    requires OccursAt(s, t, i)
    ensures s == s[..i] + t + s[i + |t|..]
  {
    assert s == s[..i] + s[i..i + |t|] + s[i + |t|..];
  }

  lemma JoinCons(a: Bytes, rest: seq<Bytes>, sep: Bytes)
    requires |rest| > 0
    ensures Join([a] + rest, sep) == a + sep + Join(rest, sep)
  {
    assert ([a] + rest)[1..] == rest;
  }

  /** Joining the pieces back with the separator gives the string. */
  lemma {:induction false} SplitJoin(s: Bytes, sep: Bytes)
    requires |sep| > 0
    ensures Join(Split(s, sep), sep) == s
    decreases |s|
  {
    match Find(s, sep)
    case None =>
    case Some(i) =>
      var tail := s[i + |sep|..];
      SplitJoin(tail, sep);
      SplitSome(s, sep, i);
      JoinCons(s[..i], Split(tail, sep), sep);
  }

  /** No piece holds the separator. */
  lemma {:induction false} SplitClean(s: Bytes, sep: Bytes)
    requires |sep| > 0
    ensures forall k :: 0 <= k < |Split(s, sep)| ==> !Contains(Split(s, sep)[k], sep)
    decreases |s|
  {
    match Find(s, sep)
    case None =>
    case Some(i) =>
      var tail := s[i + |sep|..];
      SplitClean(tail, sep);
      SplitSome(s, sep, i);
      BeforeFirst(s, sep, i);
      var r := Split(s, sep);
      forall k | 0 <= k < |r| ensures !Contains(r[k], sep) {
        if k > 0 {
          assert r[k] == Split(tail, sep)[k - 1];
        }
      }
  }

  /** The first piece is a prefix, followed by the separator when there is
      a second piece; it then ends at the first occurrence. */
  lemma SplitFirst(s: Bytes, sep: Bytes)
    requires |sep| > 0
    ensures Split(s, sep)[0] <= s
    ensures |Split(s, sep)| >= 2 ==> OccursAt(s, sep, |Split(s, sep)[0]|)
    ensures |Split(s, sep)| >= 2 ==> Find(s, sep) == Some(|Split(s, sep)[0]|)
  {
    match Find(s, sep)
    case None =>
    case Some(i) =>
      SplitSome(s, sep, i);
  }


  /** The part before the first occurrence holds no occurrence. */
  lemma BeforeFirst(s: Bytes, sep: Bytes, i: nat)
    requires |sep| > 0 && Find(s, sep) == Some(i)
    ensures !Contains(s[..i], sep)
  {
    assert OccursAt(s, sep, i);
    forall j: nat | j <= i ensures !OccursAt(s[..i], sep, j) {
      if j + |sep| <= i {
        assert !OccursAt(s, sep, j);
        assert s[..i][j..j + |sep|] == s[j..j + |sep|];
      }
    }
  }

  /** When the separator occurs, the second piece runs from just after its
      first occurrence up to the next one or to the end. */
  lemma SplitSecond(s: Bytes, sep: Bytes)
    requires |sep| > 0 && Contains(s, sep)
    ensures |Split(s, sep)| >= 2
    ensures var p := Split(s, sep)[0]; var t := Split(s, sep)[1];
      && |p| + |sep| + |t| <= |s| && s[..|p| + |sep| + |t|] == p + sep + t
      && (|p| + |sep| + |t| == |s| || OccursAt(s, sep, |p| + |sep| + |t|))
  {
    SplitPieces(s, sep);
    SplitFirst(s, sep);
    var p := Split(s, sep)[0];
    SplitSome(s, sep, |p|);
    var rest := s[|p| + |sep|..];
    FirstPiece(rest, sep);
    var t := Split(rest, sep)[0];
    assert Split(s, sep)[1] == t;
    assert s[..|p| + |sep| + |t|] == p + sep + t by {
      assert s == p + sep + rest;
    }
    if |t| < |rest| {
      OccursShift(s, sep, |p| + |sep|, |t|);
    }
  }

  /** The first piece is a prefix that ends at the end or at an occurrence. */
  lemma FirstPiece(s: Bytes, sep: Bytes)
    requires |sep| > 0
    ensures var t := Split(s, sep)[0];
      && |t| <= |s| && s[..|t|] == t
      && (|t| == |s| || OccursAt(s, sep, |t|))
  {
    SplitFirst(s, sep);
    if |Split(s, sep)| < 2 {
      SplitPieces(s, sep);
      SplitWithout(s, sep);
    }
  }

  /** An occurrence in a suffix is an occurrence in the whole. */
  lemma OccursShift(s: Bytes, t: Bytes, a: nat, j: nat)
    requires a <= |s| && OccursAt(s[a..], t, j)
    ensures OccursAt(s, t, a + j)
  {
    assert s[a + j..a + j + |t|] == s[a..][j..j + |t|];
  }

  /** There is a second piece exactly when the separator occurs. */
  lemma SplitPieces(s: Bytes, sep: Bytes)
    requires |sep| > 0
    ensures |Split(s, sep)| >= 2 <==> Contains(s, sep)
  {
  }

  /** A string without the separator is split into itself. */
  lemma SplitWithout(s: Bytes, sep: Bytes)
    requires |sep| > 0 && !Contains(s, sep)
    ensures Split(s, sep) == [s]
  {
  }

  /** Splitting on a one-byte separator at its first occurrence. */
  lemma SplitAtFirst(s: Bytes, a: Bytes, c: Byte, b: Bytes)
    requires s == a + [c] + b && c !in a
    ensures Split(s, [c]) == [a] + Split(b, [c])
  {
    assert OccursAt(s, [c], |a|);
    forall j: nat | j < |a| ensures !OccursAt(s, [c], j) {
      assert s[j] == a[j];
    }
    FindFirst(s, [c], |a|);
    SplitSome(s, [c], |a|);
    assert s[..|a|] == a;
    assert s[|a| + 1..] == b;
  }

  /** A line of three single-separator tokens splits into those tokens. */
  lemma SplitThree(s: Bytes, a: Bytes, b: Bytes, d: Bytes, c: Byte)
    requires s == a + [c] + b + [c] + d
    requires c !in a && c !in b && c !in d
    ensures Split(s, [c]) == [a, b, d]
  {
    var x := b + [c] + d;
    assert s == a + [c] + x;
    SplitAtFirst(s, a, c, x);
    SplitAtFirst(x, b, c, d);
    MissingByte(d, [c], c);
    SplitWithout(d, [c]);
  }

  /** A string lacking one of the bytes of `t` does not contain `t`. */
  lemma MissingByte(s: Bytes, t: Bytes, c: Byte)
    requires c in t && c !in s
    ensures !Contains(s, t)
  {
    var k :| 0 <= k < |t| && t[k] == c;
    forall i: nat ensures !OccursAt(s, t, i) {
      if i + |t| <= |s| {
        assert s[i..i + |t|][k] == s[i + k];
      }
    }
  }

  /** The next line of the stream whose unread bytes are `s`, as
      `readline()` on a binary stream returns it: everything up to and
      including the first newline, or all of `s` when it holds no newline;
      empty exactly at the end of the stream. */
  function ReadLine(s: Bytes): (line: Bytes)
    ensures line <= s
    ensures |line| == 0 <==> |s| == 0
    ensures forall j :: 0 <= j < |line| - 1 ==> line[j] != '\n'
    ensures |line| == |s| || line[|line| - 1] == '\n'
  {
    if |s| == 0 then []
    else if s[0] == '\n' then [s[0]]
    else [s[0]] + ReadLine(s[1..])
  }

  /** A line `l` followed by a newline is read back as `l` plus the newline. */
  lemma {:induction false} ReadTerminatedLine(l: Bytes, rest: Bytes)
    requires '\n' !in l
    ensures ReadLine(l + Newline + rest) == l + Newline
    decreases |l|
  {
    var s := l + Newline + rest;
    if |l| > 0 {
      assert s[0] == l[0];
      assert s[1..] == l[1..] + Newline + rest;
      ReadTerminatedLine(l[1..], rest);
      assert [s[0]] + (l[1..] + Newline) == l + Newline;
    } else {
      assert s[0] == '\n';
    }
  }

  /** A whole line as `readline()` returns it: ending in its only newline. */
  predicate IsLine(l: Bytes)
  {
    |l| > 0 && l[|l| - 1] == '\n' && '\n' !in l[..|l| - 1]
  }

  /** A whole line at the front of the stream is what `readline()` returns. */
  lemma ReadWholeLine(l: Bytes, rest: Bytes)
    requires IsLine(l)
    ensures ReadLine(l + rest) == l
  {
    var body := l[..|l| - 1];
    assert l == body + Newline;
    ReadTerminatedLine(body, rest);
  }

  /** Each line followed by a newline, concatenated: a text file's bytes. */
  function Terminated(lines: seq<Bytes>): Bytes
  {
    if |lines| == 0 then [] else lines[0] + Newline + Terminated(lines[1..])
  }

  lemma {:induction false} TerminatedAppend(a: seq<Bytes>, b: seq<Bytes>)
    ensures Terminated(a + b) == Terminated(a) + Terminated(b)
    decreases |a|
  {
    if |a| > 0 {
      assert (a + b)[1..] == a[1..] + b;
      TerminatedAppend(a[1..], b);
    } else {
      assert a + b == b;
    }
  }

  /** Splitting newline-terminated lines on the newline gives the lines back,
      followed by the empty piece after the last newline. */
  lemma {:induction false} SplitTerminated(lines: seq<Bytes>)
    requires forall k :: 0 <= k < |lines| ==> '\n' !in lines[k]
    ensures Split(Terminated(lines), Newline) == lines + [[]]
    decreases |lines|
  {
    if |lines| == 0 {
      assert !Contains([], Newline);
    } else {
      SplitAtFirst(Terminated(lines), lines[0], '\n', Terminated(lines[1..]));
      SplitTerminated(lines[1..]);
      assert lines == [lines[0]] + lines[1..];
    }
  }

  /** When no line contains `sep` and `sep` holds no newline, `sep` can occur
      in the text only after all of the lines. */
  lemma {:induction false} NoOccurrenceInLines(lines: seq<Bytes>, tail: Bytes, sep: Bytes, p: nat)
    requires |sep| > 0 && '\n' !in sep
    requires forall k :: 0 <= k < |lines| ==> !Contains(lines[k], sep)
    requires p < |Terminated(lines)|
    ensures !OccursAt(Terminated(lines) + tail, sep, p)
    decreases |lines|
  {
    var l := lines[0];
    var rest := Terminated(lines[1..]) + tail;
    var s := Terminated(lines) + tail;
    assert s == l + Newline + rest;
    if p + |sep| <= |s| {
      if p + |sep| <= |l| {
        assert s[p..p + |sep|] == l[p..p + |sep|];
        assert !OccursAt(l, sep, p);
      } else if p <= |l| {
        assert s[p..p + |sep|][|l| - p] == '\n';
      } else {
        assert s[p..p + |sep|] == rest[p - |l| - 1..p - |l| - 1 + |sep|];
        NoOccurrenceInLines(lines[1..], tail, sep, p - |l| - 1);
      }
    }
  }

  /** The first piece of splitting lines-then-`tail` on `sep`, where `tail`
      starts with `sep` and no line contains it, is the lines' text. */
  lemma FirstPieceBeforeTail(lines: seq<Bytes>, tail: Bytes, sep: Bytes)
    requires |sep| > 0 && '\n' !in sep
    requires forall k :: 0 <= k < |lines| ==> !Contains(lines[k], sep)
    requires OccursAt(tail, sep, 0)
    ensures Split(Terminated(lines) + tail, sep)[0] == Terminated(lines)
  {
    var t := Terminated(lines);
    var s := t + tail;
    assert OccursAt(s, sep, |t|);
    NoneBeforeTail(lines, tail, sep);
    FindFirst(s, sep, |t|);
    SplitSome(s, sep, |t|);
    assert s[..|t|] == t;
  }

  /** The separator starts nowhere inside the terminated lines. */
  lemma NoneBeforeTail(lines: seq<Bytes>, tail: Bytes, sep: Bytes)
    requires |sep| > 0 && '\n' !in sep
    requires forall k :: 0 <= k < |lines| ==> !Contains(lines[k], sep)
    ensures forall p: nat :: p < |Terminated(lines)| ==> !OccursAt(Terminated(lines) + tail, sep, p)
  {
    forall p: nat | p < |Terminated(lines)| ensures !OccursAt(Terminated(lines) + tail, sep, p) {
      NoOccurrenceInLines(lines, tail, sep, p);
    }
  }

  /** The first occurrence is the one with none before it. */
  lemma FindFirst(s: Bytes, sep: Bytes, i: nat)
    requires OccursAt(s, sep, i)
    requires forall p: nat :: p < i ==> !OccursAt(s, sep, p)
    ensures Find(s, sep) == Some(i)
  {
    assert Contains(s, sep);
  }

}
