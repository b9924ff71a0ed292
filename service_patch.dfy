/**
 * `patch_amaru_service` in app/src/migrations/m2025_12.rs: points the
 * `ExecStart=` line of the amaru systemd unit at the wrapper script, unless
 * the unit already mentions the wrapper.
 */
module ServicePatch {
  import opened Wrappers
  import opened Strings

  /** The line the patched unit starts the node with. */
  const Wrapper: string := "ExecStart=/home/pi/scripts/start-amaru.sh"

  const ExecStartPrefix: string := "ExecStart="

  /** The first index of `c` in `s`, or `|s|` when there is none. */
  function IndexOf(s: string, c: char): (i: nat)
    ensures i <= |s|
    ensures i < |s| ==> s[i] == c
    ensures forall j :: 0 <= j < i ==> s[j] != c
  {
    if s == [] then 0 else if s[0] == c then 0 else 1 + IndexOf(s[1..], c)
  }

  /** A line ended by `\r\n` loses its `\r`. */
  function StripCarriageReturn(line: string): (r: string)
    ensures r == line || (line == r + "\r")
  {
    if |line| > 0 && line[|line| - 1] == '\r' then line[..|line| - 1] else line
  }

  /**
   * `str::lines`: the pieces between `\n`s, a `\r` before a `\n` dropped, and
   * no empty last piece after a final `\n`.
   */
  function SplitLines(s: string): (ls: seq<string>)
    ensures s != [] <==> ls != []
    ensures forall i :: 0 <= i < |ls| ==> '\n' !in ls[i]
    decreases |s|
  {
    if s == [] then []
    else
      var i := IndexOf(s, '\n');
      if i == |s| then [s] else [StripCarriageReturn(s[..i])] + SplitLines(s[i + 1..])
  }

  /** `join("\n")`: the first line, then each later line after a newline. */
  function JoinLines(ls: seq<string>): (r: string)
    ensures ls != [] ==> |ls[0]| <= |r| && r[..|ls[0]|] == ls[0]
    decreases |ls|
  {
    if ls == [] then "" else if |ls| == 1 then ls[0] else ls[0] + "\n" + JoinLines(ls[1..])
  }

  /** Whether a line is a start command: it begins with `ExecStart=` once surrounding whitespace is trimmed. */
  predicate IsExecStart(line: string) {
    StartsWith(Trim(line), ExecStartPrefix)
  }

  /** The `map` over lines: every start command becomes the wrapper line, every other line is kept. */
  function RewriteLines(ls: seq<string>): (r: seq<string>)
    ensures |r| == |ls|
    ensures forall i :: 0 <= i < |ls| ==> r[i] == (if IsExecStart(ls[i]) then Wrapper else ls[i])
    decreases |ls|
  {
    if ls == [] then [] else [if IsExecStart(ls[0]) then Wrapper else ls[0]] + RewriteLines(ls[1..])
  }

  /**
   * The contents written back to the unit file, given its contents if it
   * exists: nothing is written when the file is missing or already mentions
   * the wrapper; otherwise the rewritten lines joined by `\n`.
   */
  function PatchService(content: Option<string>): (r: Option<string>)
    ensures r.Some? <==> content.Some? && !Contains(content.value, Wrapper)
    ensures r.Some? ==> r.value == JoinLines(RewriteLines(SplitLines(content.value)))
  {
    match content
    case None => None
    case Some(text) =>
      if Contains(text, Wrapper) then None else Some(JoinLines(RewriteLines(SplitLines(text))))
  }

  /** Joined lines contain each of their lines. */
  lemma {:induction false} JoinContainsLine(ls: seq<string>, i: nat)
    requires i < |ls|
    ensures Contains(JoinLines(ls), ls[i])
    decreases |ls|
  {
    if |ls| == 1 {
      ContainsInfix("", ls[0], "");
      assert "" + ls[0] + "" == ls[0];
    } else if i == 0 {
      ContainsInfix("", ls[0], "\n" + JoinLines(ls[1..]));
      assert "" + ls[0] + ("\n" + JoinLines(ls[1..])) == JoinLines(ls);
    } else {
      JoinContainsLine(ls[1..], i - 1);
      ContainsSuffix(ls[0] + "\n", JoinLines(ls[1..]), ls[i]);
    }
  }

  /** Patching is done once: a unit with a start command, once patched, is left alone by the next run. */
  lemma PatchIdempotent(content: string)
    requires exists i :: 0 <= i < |SplitLines(content)| && IsExecStart(SplitLines(content)[i])
    ensures var r := PatchService(Some(content));
      r.Some? ==> PatchService(r) == None
  {
    var ls := SplitLines(content);
    var i :| 0 <= i < |ls| && IsExecStart(ls[i]);
    JoinContainsLine(RewriteLines(ls), i);
  }

  /** Splitting and joining give the text back when it has no `\r` and no final `\n`. */
  lemma {:induction false} JoinSplitLines(s: string)
    requires '\r' !in s
    requires s == [] || s[|s| - 1] != '\n'
    ensures JoinLines(SplitLines(s)) == s
    decreases |s|
  {
    if s != [] {
      var i := IndexOf(s, '\n');
      if i < |s| {
        var rest := s[i + 1..];
        assert s[..i] + "\n" + rest == s;
        assert '\r' !in s[..i] by {
          forall j | 0 <= j < i ensures s[..i][j] != '\r' {
            assert s[j] in s;
          }
        }
        assert StripCarriageReturn(s[..i]) == s[..i];
        assert '\r' !in rest by {
          forall j | 0 <= j < |rest| ensures rest[j] != '\r' {
            assert s[i + 1 + j] in s;
          }
        }
        assert rest[|rest| - 1] == s[|s| - 1];
        JoinSplitLines(rest);
        assert SplitLines(s) == [s[..i]] + SplitLines(rest);
      }
    }
  }

  /**
   * A unit with no start command and neither `\r` nor a final newline is
   * written back exactly as it was.
   */
  lemma PatchWithoutExecStartKeepsContent(content: string)
    requires !Contains(content, Wrapper)
    requires forall i :: 0 <= i < |SplitLines(content)| ==> !IsExecStart(SplitLines(content)[i])
    requires '\r' !in content
    requires content == [] || content[|content| - 1] != '\n'
    ensures PatchService(Some(content)) == Some(content)
  {
    var ls := SplitLines(content);
    assert RewriteLines(ls) == ls;
    JoinSplitLines(content);
  }
}
