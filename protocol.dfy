/**
 * The text protocol spoken with the interactive interpreter: the prompt
 * sentinel, the commands the session sends, and the pure string steps that
 * turn the interpreter's output back into values (text before the prompt,
 * CR LF normalisation, NUL-separated fields). Also the file-content model used
 * for the variable file.
 */
module Protocol {
  import opened Wrappers

  /** The prompt the session forces on the interpreter (`PS1`). */
  const PS1: string := "EXPECT$ "

  lemma PromptHasNoLineFeed()
    ensures '\n' !in PS1
  {
    assert PS1 == ['E', 'X', 'P', 'E', 'C', 'T', '$', ' '];
  }

  /** The command of `set_ps1`; read-only so that no probe can redefine the prompt. */
  const SetPs1Command: string := "readonly PS1='" + PS1 + "'"

  /** The probe of `expand_word`: prints every expanded field followed by a NUL.
      The source writes it as a raw string, so the `\0` reaches the interpreter
      as a backslash and a zero, which `printf` turns into a NUL byte. */
  function ProbeCommand(word: string): string
  {
    "printf '%s\\0' " + word
  }

  /** The command that loads a file of variable assignments into the interpreter. */
  function SourceCommand(path: string): string
  {
    "source '" + path + "'"
  }

  // ---------------------------------------------------------------------------
  // Substrings

  /** `p` occurs in `s` starting at index `j`. */
  predicate OccursAt(s: string, p: string, j: int)
  {
    0 <= j && j + |p| <= |s| && s[j..j + |p|] == p
  }

  predicate Contains(s: string, p: string)
  {
    exists j :: 0 <= j <= |s| && OccursAt(s, p, j)
  }

  /** An occurrence at `j` in `s` is one at `j - d` in `s[d..]`. */
  lemma OccursShift(s: string, p: string, j: int, d: nat)
    requires d <= j && d <= |s|
    ensures OccursAt(s, p, j) <==> OccursAt(s[d..], p, j - d)
  {
    if j + |p| <= |s| {
      assert s[j..j + |p|] == s[d..][j - d..j - d + |p|];
    }
  }

  /** The first index at which `p` occurs in `s`, as Python's `re.search` of an
      escaped literal finds it. */
  function Find(s: string, p: string): (r: Option<nat>)
    ensures r.Some? ==> OccursAt(s, p, r.value) && forall j :: 0 <= j < r.value ==> !OccursAt(s, p, j)
    ensures r.None? <==> !Contains(s, p)
    decreases |s|
  {
    if |s| < |p| then
      assert forall j :: !OccursAt(s, p, j);
      None
    else if s[..|p|] == p then
      assert OccursAt(s, p, 0);
      Some(0)
    else
      assert !OccursAt(s, p, 0);
      forall j | 1 <= j ensures OccursAt(s, p, j) <==> OccursAt(s[1..], p, j - 1) {
        OccursShift(s, p, j, 1);
      }
      match Find(s[1..], p)
      case None => None
      case Some(i) => Some(i + 1)
  }

  // ---------------------------------------------------------------------------
  // Text before the prompt (`bash_mirror.expect` then `bash_mirror.before`)

  /** `stream` is `before`, one prompt, then `after`. */
  predicate PromptSplits(stream: string, before: string, after: string)
  {
    before + PS1 + after == stream
  }

  /** Splits the unread interpreter output at the first prompt: the text before
      it and the text after it, which stays unread. `None` when no prompt is in
      the output, where pexpect raises EOF or TIMEOUT. */
  function BeforePrompt(stream: string): (r: Option<(string, string)>)
    ensures r.None? <==> !Contains(stream, PS1)
    ensures r.Some? ==> PromptSplits(stream, r.value.0, r.value.1)
    ensures r.Some? ==> !Contains(r.value.0, PS1)
  {
    match Find(stream, PS1)
    case None => None
    case Some(i) =>
      var before, after := stream[..i], stream[i + |PS1|..];
      assert before + PS1 + after == stream by {
        assert stream[i..i + |PS1|] == PS1;
        assert stream == stream[..i] + stream[i..i + |PS1|] + stream[i + |PS1|..];
      }
      assert !Contains(before, PS1) by {
        forall j | OccursAt(before, PS1, j) ensures false {
          assert stream[j..j + |PS1|] == before[j..j + |PS1|];
          assert OccursAt(stream, PS1, j);
        }
      }
      Some((before, after))
  }

  // ---------------------------------------------------------------------------
  // CR LF normalisation (`output.replace("\r\n", "\n")`)

  /** Python's `str.replace("\r\n", "\n")`: non-overlapping, left to right. */
  function ReplaceCrlf(s: string): string
  {
    if |s| >= 2 && s[0] == '\r' && s[1] == '\n' then "\n" + ReplaceCrlf(s[2..])
    else if s == [] then []
    else [s[0]] + ReplaceCrlf(s[1..])
  }

  /** Output without any carriage return comes back unchanged. */
  lemma {:induction false} ReplaceCrlfNoCr(s: string)
    requires '\r' !in s
    ensures ReplaceCrlf(s) == s
  {
    if s != [] {
      assert s[0] != '\r';
      assert '\r' !in s[1..] by {
        forall i | 0 <= i < |s[1..]| ensures s[1..][i] != '\r' { assert s[1..][i] == s[i + 1]; }
      }
      ReplaceCrlfNoCr(s[1..]);
    }
  }

  /** What a terminal in its default mode does to program output: every line
      feed is written as a carriage return and a line feed. */
  function ToCrlf(s: string): (r: string)
    ensures |r| >= |s|
  {
    if s == [] then []
    else if s[0] == '\n' then "\r\n" + ToCrlf(s[1..])
    else [s[0]] + ToCrlf(s[1..])
  }

  /** The normalisation undoes the terminal's line-feed translation of any
      output that has no carriage return of its own. */
  lemma {:induction false} ReplaceCrlfUndoesTerminal(s: string)
    requires '\r' !in s
    ensures ReplaceCrlf(ToCrlf(s)) == s
  {
    if s != [] {
      assert '\r' !in s[1..] by {
        forall i | 0 <= i < |s[1..]| ensures s[1..][i] != '\r' { assert s[1..][i] == s[i + 1]; }
      }
      ReplaceCrlfUndoesTerminal(s[1..]);
      var t := ToCrlf(s[1..]);
      if s[0] == '\n' {
        assert ("\r\n" + t)[2..] == t;
      } else {
        assert ([s[0]] + t)[1..] == t;
        if |t| > 0 {
          assert ([s[0]] + t)[0] != '\r';
        }
      }
    }
  }

  /** If the normalised text starts with `q`, and `q` has no line feed, then so
      did the text before normalisation. */
  lemma {:induction false} ReplaceCrlfPrefix(s: string, q: string)
    ensures '\n' !in q && |q| <= |ReplaceCrlf(s)| && ReplaceCrlf(s)[..|q|] == q
            ==> |q| <= |s| && s[..|q|] == q
  {
    if q != [] && '\n' !in q {
      if |s| >= 2 && s[0] == '\r' && s[1] == '\n' {
        assert ReplaceCrlf(s)[0] == '\n' && q[0] in q;
      } else if s != [] {
        var t := ReplaceCrlf(s[1..]);
        assert ReplaceCrlf(s) == [s[0]] + t;
        assert '\n' !in q[1..] by {
          forall i | 0 <= i < |q[1..]| ensures q[1..][i] != '\n' { assert q[1..][i] == q[i + 1]; }
        }
        if |q| <= |ReplaceCrlf(s)| && ReplaceCrlf(s)[..|q|] == q {
          assert t[..|q| - 1] == q[1..];
          ReplaceCrlfPrefix(s[1..], q[1..]);
          assert s[..|q|] == [s[0]] + s[1..][..|q| - 1];
        }
      }
    }
  }

  /** The normalisation never creates a line-feed-free pattern (the prompt, for
      one) that was not already in its input. */
  lemma {:induction false} ReplaceCrlfKeepsAbsent(s: string, p: string)
    requires '\n' !in p
    requires !Contains(s, p)
    ensures !Contains(ReplaceCrlf(s), p)
    decreases |s|
  {
    var r := ReplaceCrlf(s);
    forall j | OccursAt(r, p, j) ensures false {
      OccursInNormalised(s, p, j);
    }
  }

  /** An occurrence in a suffix is an occurrence in the whole. */
  lemma ContainsSuffix(s: string, p: string, d: nat)
    requires d <= |s| && Contains(s[d..], p)
    ensures Contains(s, p)
  {
    var k :| 0 <= k <= |s[d..]| && OccursAt(s[d..], p, k);
    OccursShift(s, p, k + d, d);
    assert OccursAt(s, p, k + d);
  }

  lemma {:induction false} OccursInNormalised(s: string, p: string, j: int)
    requires '\n' !in p
    requires OccursAt(ReplaceCrlf(s), p, j)
    ensures Contains(s, p)
    decreases |s|
  {
    var r := ReplaceCrlf(s);
    if j == 0 {
      assert r[..|p|] == p;
      ReplaceCrlfPrefix(s, p);
      assert OccursAt(s, p, 0);
    } else {
      var d := if |s| >= 2 && s[0] == '\r' && s[1] == '\n' then 2 else 1;
      assert s != [];
      var t := ReplaceCrlf(s[d..]);
      assert r == r[..1] + t;
      assert t[j - 1..j - 1 + |p|] == r[j..j + |p|];
      OccursInNormalised(s[d..], p, j - 1);
      ContainsSuffix(s, p, d);
    }
  }

  // ---------------------------------------------------------------------------
  // NUL-separated fields (`output.split("\0")[:-1]`)

  const NUL: char := 0 as char

  /** Python's `str.split(sep)` for a one-character separator: always at least
      one field. */
  function Split(s: string, sep: char): (fields: seq<string>)
    ensures |fields| >= 1
  {
    if s == [] then [""]
    else
      var rest := Split(s[1..], sep);
      if s[0] == sep then [""] + rest else [[s[0]] + rest[0]] + rest[1..]
  }

  /** The fields of `expand_word`: the split on NUL without its last field. */
  function SplitNul(output: string): seq<string>
  {
    var fields := Split(output, NUL);
    fields[..|fields| - 1]
  }

  /** The probe's output format: every field followed by a NUL. */
  function Terminated(fields: seq<string>): string
  {
    if fields == [] then "" else fields[0] + [NUL] + Terminated(fields[1..])
  }

  lemma {:induction false} SplitAfterField(x: string, t: string, sep: char)
    requires sep !in x
    ensures Split(x + [sep] + t, sep) == [x] + Split(t, sep)
  {
    if x == [] {
      assert x + [sep] + t == [sep] + t;
      assert ([sep] + t)[1..] == t;
    } else {
      var s := x + [sep] + t;
      assert s[0] == x[0] && s[1..] == x[1..] + [sep] + t;
      assert sep !in x[1..] by {
        forall i | 0 <= i < |x[1..]| ensures x[1..][i] != sep { assert x[1..][i] == x[i + 1]; }
      }
      SplitAfterField(x[1..], t, sep);
      assert [x[0]] + x[1..] == x;
    }
  }

  /** Parsing the probe's output recovers exactly the fields the interpreter
      printed, when none of them contains a NUL; an empty output gives none. */
  lemma {:induction false} SplitNulTerminated(fields: seq<string>)
    requires forall i :: 0 <= i < |fields| ==> NUL !in fields[i]
    ensures Split(Terminated(fields), NUL) == fields + [""]
    ensures SplitNul(Terminated(fields)) == fields
  {
    if fields != [] {
      SplitNulTerminated(fields[1..]);
      SplitAfterField(fields[0], Terminated(fields[1..]), NUL);
      assert [fields[0]] + (fields[1..] + [""]) == fields + [""];
    }
  }

  /** No field of a split holds the separator. */
  lemma {:induction false} SplitFieldsFree(s: string, sep: char)
    ensures forall i :: 0 <= i < |Split(s, sep)| ==> sep !in Split(s, sep)[i]
  {
    if s != [] {
      SplitFieldsFree(s[1..], sep);
    }
  }

  /** The other direction: the output is the fields, each followed by a NUL,
      and then the text after the last NUL, which the parse drops. */
  lemma {:induction false} SplitNulInverse(output: string)
    ensures forall i :: 0 <= i < |SplitNul(output)| ==> NUL !in SplitNul(output)[i]
    ensures var fields := Split(output, NUL);
            output == Terminated(SplitNul(output)) + fields[|fields| - 1] && NUL !in fields[|fields| - 1]
  {
    SplitFieldsFree(output, NUL);
    if output != [] {
      SplitNulInverse(output[1..]);
      var rest := Split(output[1..], NUL);
      var lead := SplitNul(output[1..]);
      assert output == [output[0]] + output[1..];
      if output[0] == NUL {
        assert Split(output, NUL) == [""] + rest;
        assert SplitNul(output) == [""] + lead;
        assert Terminated([""] + lead) == [NUL] + Terminated(lead);
      } else if |rest| == 1 {
        assert SplitNul(output) == [];
        assert Split(output, NUL) == [[output[0]] + rest[0]];
      } else {
        assert Split(output, NUL) == [[output[0]] + rest[0]] + rest[1..];
        assert lead == [rest[0]] + lead[1..];
        assert SplitNul(output) == [[output[0]] + rest[0]] + lead[1..];
        assert Terminated(lead) == rest[0] + [NUL] + Terminated(lead[1..]);
        assert Terminated(SplitNul(output)) == [output[0]] + rest[0] + [NUL] + Terminated(lead[1..]);
      }
    }
  }

  // ---------------------------------------------------------------------------
  // File contents under positioned writes

  function Nuls(n: nat): (r: string)
    ensures |r| == n && forall i :: 0 <= i < n ==> r[i] == NUL
  {
    seq(n, i => NUL)
  }

  /** The content of a file after writing `data` at position `pos`: a write
      beyond the end leaves a hole that reads as NUL characters. */
  function WriteAt(content: string, pos: nat, data: string): (r: string)
    ensures |r| == if pos + |data| <= |content| then |content| else pos + |data|
    ensures r[pos..pos + |data|] == data
    ensures pos <= |content| ==> r[..pos] == content[..pos]
    ensures pos > |content| ==> r[..pos] == content + Nuls(pos - |content|)
    ensures pos + |data| <= |content| ==> r[pos + |data|..] == content[pos + |data|..]
  {
    var head := if pos <= |content| then content[..pos] else content + Nuls(pos - |content|);
    var tail := if pos + |data| < |content| then content[pos + |data|..] else "";
    assert |head| == pos;
    head + data + tail
  }

  /** Writing at the end of the file appends. */
  lemma WriteAtEnd(content: string, data: string)
    ensures WriteAt(content, |content|, data) == content + data
  {
    var r := WriteAt(content, |content|, data);
    assert r == r[..|content|] + r[|content|..];
  }

  /** Writing at or past the end leaves the old content, a run of NUL
      characters as long as the gap, and then the data. */
  lemma WriteAtPastEnd(content: string, pos: nat, data: string)
    requires pos >= |content|
    ensures WriteAt(content, pos, data) == content + Nuls(pos - |content|) + data
  {
    var r := WriteAt(content, pos, data);
    if pos == |content| {
      assert r[..pos] == content[..pos] == content + Nuls(0);
    }
    assert r == r[..pos] + r[pos..];
  }
}
