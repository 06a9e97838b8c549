/**
 * `os.path.join` on POSIX: a part that starts with `/` discards everything
 * joined so far; otherwise a `/` is put in front of the part unless the path
 * so far is empty or already ends with `/`.
 */
module PosixPath {

  const Sep: char := '/'

  function JoinOne(path: string, part: string): (r: string)
  {
    if |part| > 0 && part[0] == Sep then part
    else if path == [] || path[|path| - 1] == Sep then path + part
    else path + [Sep] + part
  }

  /** `os.path.join(a, *parts)`, the parts taken from left to right. */
  function Join(a: string, parts: seq<string>): string
  {
    if parts == [] then a else JoinOne(Join(a, parts[..|parts| - 1]), parts[|parts| - 1])
  }

  /** Whatever came before, the joined path ends with the last part. */
  lemma JoinEndsWithLastPart(a: string, parts: seq<string>)
    requires parts != []
    ensures var last := parts[|parts| - 1]; var r := Join(a, parts);
      |last| <= |r| && r[|r| - |last|..] == last
  {
  }

  /** Joining in two steps is joining once. */
  lemma {:induction false} JoinAppend(a: string, ps: seq<string>, qs: seq<string>)
    ensures Join(a, ps + qs) == Join(Join(a, ps), qs)
    decreases |qs|
  {
    if qs == [] {
      assert ps + qs == ps;
    } else {
      var n := |qs| - 1;
      assert (ps + qs)[..|ps + qs| - 1] == ps + qs[..n];
      JoinAppend(a, ps, qs[..n]);
    }
  }

  /** An absolute part makes the result independent of everything before it. */
  lemma AbsolutePartResets(a: string, ps: seq<string>, b: string, qs: seq<string>)
    requires |b| > 0 && b[0] == Sep
    ensures Join(a, ps + [b] + qs) == Join(b, qs)
  {
    JoinAppend(a, ps + [b], qs);
    assert (ps + [b])[..|ps|] == ps;
  }

  /** A non-empty part with no `/` in it. */
  predicate IsPlainPart(p: string) { p != [] && Sep !in p }

  /** One plain part after a path that does not end with `/` gets one `/`. */
  lemma JoinOnePlain(path: string, part: string)
    requires path != [] && path[|path| - 1] != Sep && IsPlainPart(part)
    ensures JoinOne(path, part) == path + "/" + part
    ensures var r := JoinOne(path, part); r != [] && r[|r| - 1] != Sep
  {
    assert part[0] in part && part[|part| - 1] in part;
  }

  /** The parts, each preceded by `/`. */
  function Slashed(parts: seq<string>): string {
    if parts == [] then "" else Slashed(parts[..|parts| - 1]) + [Sep] + parts[|parts| - 1]
  }

  /** From a non-empty root without a trailing `/`, plain parts are simply
      appended with one `/` between each. */
  lemma {:induction false} JoinPlain(a: string, parts: seq<string>)
    requires a != [] && a[|a| - 1] != Sep
    requires forall i :: 0 <= i < |parts| ==> IsPlainPart(parts[i])
    ensures Join(a, parts) == a + Slashed(parts)
    ensures Join(a, parts) != [] && Join(a, parts)[|Join(a, parts)| - 1] != Sep
  {
    if parts != [] {
      var n := |parts| - 1;
      var last := parts[n];
      JoinPlain(a, parts[..n]);
      var prev := Join(a, parts[..n]);
      assert last[0] != Sep && last[|last| - 1] != Sep;
      assert Join(a, parts) == prev + [Sep] + last;
      assert Slashed(parts) == Slashed(parts[..n]) + [Sep] + last;
    }
  }
}
