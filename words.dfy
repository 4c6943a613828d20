/**
 * Argument words and the per-word classifier: which words the engine sends to
 * the interpreter for expansion, how a word is turned into the text of a probe,
 * and how an expanded string is turned back into a quoted word character.
 */
module Words {
  import opened Wrappers

  /** One character of an argument word. A `CArgChar` holds a raw character
      code as the parser produced it; a `QArgChar` holds the character codes
      of a literal produced by the interpreter, to be printed quoted. */
  datatype ArgChar = CArgChar(code: int) | QArgChar(arg: seq<int>)

  type Word = seq<ArgChar>

  /** A word as the parser hands it over: a `list[CArgChar]`. */
  predicate IsRaw(w: Word)
  {
    forall i :: 0 <= i < |w| ==> w[i].CArgChar?
  }

  /** The three characters `$`, backtick and `~` that make a word worth expanding. */
  predicate IsSpecial(c: int)
  {
    c == '$' as int || c == '`' as int || c == '~' as int
  }

  /** `should_expand`: a left-to-right scan that stops at the first special character. */
  function ShouldExpand(w: Word): bool
    requires IsRaw(w)
  {
    if w == [] then false else IsSpecial(w[0].code) || ShouldExpand(w[1..])
  }

  /** The classifier answers true exactly when some code of the word is special. */
  lemma {:induction false} ShouldExpandIff(w: Word)
    requires IsRaw(w)
    ensures ShouldExpand(w) <==> exists i :: 0 <= i < |w| && IsSpecial(w[i].code)
  {
    if w != [] {
      ShouldExpandIff(w[1..]);
      if ShouldExpand(w[1..]) {
        var i :| 0 <= i < |w[1..]| && IsSpecial(w[1..][i].code);
        assert IsSpecial(w[i + 1].code);
      }
      if exists i :: 0 <= i < |w| && IsSpecial(w[i].code) {
        var i :| 0 <= i < |w| && IsSpecial(w[i].code);
        if i > 0 {
          assert IsSpecial(w[1..][i - 1].code);
        }
      }
    }
  }

  /** The verdict of a concatenation is the disjunction of the verdicts: the
      classifier looks at each code on its own, regardless of its neighbours. */
  lemma {:induction false} ShouldExpandConcat(a: Word, b: Word)
    requires IsRaw(a) && IsRaw(b)
    ensures IsRaw(a + b)
    ensures ShouldExpand(a + b) == (ShouldExpand(a) || ShouldExpand(b))
  {
    if a == [] {
      assert a + b == b;
    } else {
      assert (a + b)[0] == a[0] && (a + b)[1..] == a[1..] + b;
      ShouldExpandConcat(a[1..], b);
    }
  }

  /** The codes `chr` accepts and UTF-8 can encode: the Unicode scalar values. */
  predicate IsScalar(c: int)
  {
    0 <= c < 0xD800 || 0xE000 <= c < 0x11_0000
  }

  /** The character codes of a raw word. */
  function CodesOf(w: Word): (codes: seq<int>)
    requires IsRaw(w)
    ensures |codes| == |w|
    ensures forall i :: 0 <= i < |w| ==> codes[i] == w[i].code
  {
    seq(|w|, i requires 0 <= i < |w| => w[i].code)
  }

  /** `"".join(chr(c) for c in codes)`: fails at the first code that is not a
      Unicode scalar value. */
  function CodesToText(codes: seq<int>): (r: Result<string>)
    ensures r.Ok? <==> forall i :: 0 <= i < |codes| ==> IsScalar(codes[i])
    ensures r.Ok? ==> |r.value| == |codes| && forall i :: 0 <= i < |codes| ==> r.value[i] as int == codes[i]
    ensures r.Err? ==> exists k :: 0 <= k < |codes| && !IsScalar(codes[k]) && r.error == InvalidCode(codes[k])
                                   && forall i :: 0 <= i < k ==> IsScalar(codes[i])
  {
    if codes == [] then Ok("")
    else if !IsScalar(codes[0]) then Err(InvalidCode(codes[0]))
    else
      match CodesToText(codes[1..])
      case Err(e) =>
        assert forall i :: 1 <= i < |codes| ==> codes[1..][i - 1] == codes[i];
        Err(e)
      case Ok(rest) => Ok([codes[0] as char] + rest)
  }

  /** The text of a raw word, as the probe sends it to the interpreter. */
  function WordText(w: Word): Result<string>
    requires IsRaw(w)
  {
    CodesToText(CodesOf(w))
  }

  /** `str_to_quoted_arg_char`: one quoted character holding the codes of the
      string; reading those codes back as text gives the string again. */
  function StrToQuotedArgChar(data: string): (q: ArgChar)
    ensures q.QArgChar? && |q.arg| == |data|
    ensures CodesToText(q.arg) == Ok(data)
  {
    var q := QArgChar(seq(|data|, i requires 0 <= i < |data| => data[i] as int));
    assert forall i :: 0 <= i < |data| ==> IsScalar(q.arg[i]);
    assert CodesToText(q.arg).value == data;
    q
  }

  /** The other direction of the round trip: codes that read as a string are
      exactly the codes of that string's quoted character. */
  lemma QuotedCodesUnique(codes: seq<int>, data: string)
    requires CodesToText(codes) == Ok(data)
    ensures StrToQuotedArgChar(data).arg == codes
  {
  }
}
