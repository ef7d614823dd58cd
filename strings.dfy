/** Text helpers shared by the call serialiser and the script writer: Python's
    `sep.join(parts)`, the substring test `sub in s`, `str.replace` for one character,
    and two readers (argument lists, lines) used to state read-back properties. */
module Strings {

  /** Python's `sep.join(parts)`. */
  function Join(sep: string, parts: seq<string>): string
  {
    if |parts| == 0 then ""
    else if |parts| == 1 then parts[0]
    else parts[0] + sep + Join(sep, parts[1..])
  }

  /** Python's `sub in s` for strings. */
  predicate Occurs(sub: string, s: string)
  {
    exists i | 0 <= i <= |s| - |sub| :: OccursAt(sub, s, i)
  }

  /** `sub` is found in `s` starting at index `i`. */
  predicate OccursAt(sub: string, s: string, i: int)
  {
    0 <= i && i + |sub| <= |s| && s[i..i + |sub|] == sub
  }

  /** Python's `s.replace("\\", "/")`. */
  function Slashed(s: string): (r: string)
    ensures |r| == |s|
    ensures '\\' !in r
    ensures forall i :: 0 <= i < |s| && s[i] != '\\' ==> r[i] == s[i]
    ensures forall i :: 0 <= i < |s| && s[i] == '\\' ==> r[i] == '/'
  {
    if |s| == 0 then ""
    else [if s[0] == '\\' then '/' else s[0]] + Slashed(s[1..])
  }

  /** Cuts `s` at every ", ", the separator `Join` puts between arguments. */
  function SplitArgs(s: string): (parts: seq<string>)
    ensures |parts| >= 1
  {
    if |s| == 0 then [""]
    else if |s| >= 2 && s[0] == ',' && s[1] == ' ' then [""] + SplitArgs(s[2..])
    else
      var rest := SplitArgs(s[1..]);
      [[s[0]] + rest[0]] + rest[1..]
  }

  /** A comma-free prefix is glued onto the first piece of what follows it. */
  lemma {:induction false} SplitArgsPrefix(a: string, t: string)
    requires ',' !in a
    ensures SplitArgs(a + t) == [a + SplitArgs(t)[0]] + SplitArgs(t)[1..]
  {
    if |a| > 0 {
      var s := a + t;
      assert s[0] == a[0] && s[0] != ',';
      assert s[1..] == a[1..] + t;
      var rest := SplitArgs(s[1..]);
      assert SplitArgs(s) == [[a[0]] + rest[0]] + rest[1..];
      SplitArgsPrefix(a[1..], t);
      assert [a[0]] + (a[1..] + SplitArgs(t)[0]) == a + SplitArgs(t)[0];
    } else {
      assert a + t == t;
      assert a + SplitArgs(t)[0] == SplitArgs(t)[0];
      assert SplitArgs(t) == [SplitArgs(t)[0]] + SplitArgs(t)[1..];
    }
  }

  /** An argument list joined with ", " reads back into the same pieces, provided
      no piece holds a comma of its own. */
  lemma {:induction false} SplitJoin(parts: seq<string>)
    requires |parts| >= 1
    requires forall k :: 0 <= k < |parts| ==> ',' !in parts[k]
    ensures SplitArgs(Join(", ", parts)) == parts
  {
    if |parts| == 1 {
      SplitArgsPrefix(parts[0], "");
      assert parts[0] + "" == parts[0];
    } else {
      var tail := Join(", ", parts[1..]);
      SplitJoin(parts[1..]);
      assert Join(", ", parts) == parts[0] + (", " + tail);
      SplitArgsPrefix(parts[0], ", " + tail);
      assert (", " + tail)[2..] == tail;
      assert SplitArgs(", " + tail) == [""] + parts[1..];
      assert parts[0] + "" == parts[0];
      assert parts == [parts[0]] + parts[1..];
    }
  }

  /** The lines of `s`: the pieces between '\n' characters, a final '\n' closing the
      last line rather than opening an empty one. */
  function Lines(s: string): (r: seq<string>)
    ensures |s| > 0 ==> |r| >= 1
  {
    if |s| == 0 then []
    else if s[0] == '\n' then [""] + Lines(s[1..])
    else
      var rest := Lines(s[1..]);
      if |rest| == 0 then [[s[0]]] else [[s[0]] + rest[0]] + rest[1..]
  }

  /** A line closed by '\n' is read back whole, whatever follows it. */
  lemma {:induction false} LinesCons(a: string, t: string)
    requires '\n' !in a
    ensures Lines(a + "\n" + t) == [a] + Lines(t)
  {
    if |a| > 0 {
      assert (a + "\n" + t)[1..] == a[1..] + "\n" + t;
      assert (a + "\n" + t)[0] == a[0];
      LinesCons(a[1..], t);
      assert [a[0]] + a[1..] == a;
    } else {
      assert a + "\n" + t == "\n" + t;
      assert ("\n" + t)[1..] == t;
    }
  }

  /** `lines` written out one after another, each closed by '\n'. */
  function Block(lines: seq<string>): string
  {
    if |lines| == 0 then "" else lines[0] + "\n" + Block(lines[1..])
  }

  lemma {:induction false} BlockAppend(a: seq<string>, b: seq<string>)
    ensures Block(a + b) == Block(a) + Block(b)
  {
    if |a| > 0 {
      assert (a + b)[1..] == a[1..] + b;
      BlockAppend(a[1..], b);
    } else {
      assert a + b == b;
    }
  }

  /** Lines written out are read back unchanged, provided none holds a '\n' of its own. */
  lemma {:induction false} BlockLines(lines: seq<string>)
    requires forall k :: 0 <= k < |lines| ==> '\n' !in lines[k]
    ensures Lines(Block(lines)) == lines
  {
    if |lines| > 0 {
      LinesCons(lines[0], Block(lines[1..]));
      BlockLines(lines[1..]);
    }
  }
}
