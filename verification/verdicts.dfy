/** The fact-check verdict: a language-model reply is trimmed and compared, exactly and
    case-sensitively, with the two tokens "True" and "False" (`trivia_trueorfalse`). */
module Verdicts {
  import opened Outcomes

  /** Python's `True` / `False` / `None` returned by `trivia_trueorfalse`. */
  datatype Verdict = IsTrue | IsFalse | Undecided

  /** Python's `str.isspace()`: the characters `str.strip()` removes when given no argument. */
  predicate IsSpace(c: char) {
    var n := c as int;
    || 0x09 <= n <= 0x0D || 0x1C <= n <= 0x20
    || n == 0x85 || n == 0xA0 || n == 0x1680
    || 0x2000 <= n <= 0x200A
    || n == 0x2028 || n == 0x2029 || n == 0x202F || n == 0x205F || n == 0x3000
  }

  predicate AllSpace(s: string) {
    forall i :: 0 <= i < |s| ==> IsSpace(s[i])
  }

  /** The first index at or after `i` whose character is not whitespace, or `|s|`. */
  function SkipLeading(s: string, i: nat): (k: nat)
    requires i <= |s|
    ensures i <= k <= |s|
    ensures forall m :: i <= m < k ==> IsSpace(s[m])
    ensures k < |s| ==> !IsSpace(s[k])
    decreases |s| - i
  {
    if i < |s| && IsSpace(s[i]) then SkipLeading(s, i + 1) else i
  }

  /** Walking left from `j` but never past `lo`: the end of the last non-whitespace
      character, or `lo`. */
  function SkipTrailing(s: string, lo: nat, j: nat): (k: nat)
    requires lo <= j <= |s|
    ensures lo <= k <= j
    ensures forall m :: k <= m < j ==> IsSpace(s[m])
    ensures k > lo ==> !IsSpace(s[k - 1])
    decreases j
  {
    if j > lo && IsSpace(s[j - 1]) then SkipTrailing(s, lo, j - 1) else j
  }

  /** Python's `s.strip()`: skip leading whitespace, then trailing whitespace of what is left.
      The result neither starts nor ends with whitespace; `StripIsSlice` shows what it keeps. */
  function Strip(s: string): (r: string)
    ensures |r| <= |s|
    ensures r == [] || (!IsSpace(r[0]) && !IsSpace(r[|r| - 1]))
  {
    var i := SkipLeading(s, 0);
    s[i..SkipTrailing(s, i, |s|)]
  }

  /** `Strip(s)` is the slice of `s` between a whitespace prefix and a whitespace suffix. */
  lemma StripIsSlice(s: string) returns (i: nat, j: nat)
    ensures i <= j <= |s|
    ensures Strip(s) == s[i..j]
    ensures AllSpace(s[..i]) && AllSpace(s[j..])
  {
    i := SkipLeading(s, 0);
    j := SkipTrailing(s, i, |s|);
    assert forall m :: 0 <= m < i ==> s[..i][m] == s[m];
    assert forall m :: 0 <= m < |s| - j ==> s[j..][m] == s[j + m];
  }

  /** Any slice between a whitespace prefix and a whitespace suffix that neither starts nor
      ends with whitespace is what `Strip` returns: the characterisation is unique. */
  lemma StripUnique(s: string, i: nat, j: nat)
    requires i <= j <= |s|
    requires AllSpace(s[..i]) && AllSpace(s[j..])
    requires i == j || (!IsSpace(s[i]) && !IsSpace(s[j - 1]))
    ensures Strip(s) == s[i..j]
  {
    assert forall m :: 0 <= m < i ==> IsSpace(s[m]) by {
      forall m | 0 <= m < i ensures IsSpace(s[m]) { assert s[..i][m] == s[m]; }
    }
    assert forall m :: j <= m < |s| ==> IsSpace(s[m]) by {
      forall m | j <= m < |s| ensures IsSpace(s[m]) { assert s[j..][m - j] == s[m]; }
    }
    var a := SkipLeading(s, 0);
    var b := SkipTrailing(s, a, |s|);
    if i == j {
      assert a == |s|;
      assert b == |s|;
    } else {
      assert a == i;
      assert b == j;
    }
  }

  /** The reply-to-verdict mapping at the end of `trivia_trueorfalse`. */
  function ParseVerdict(reply: string): (v: Verdict)
    ensures v == IsTrue <==> Strip(reply) == "True"
    ensures v == IsFalse <==> Strip(reply) == "False"
  {
    var text := Strip(reply);
    if text == "True" then IsTrue
    else if text == "False" then IsFalse
    else Undecided
  }

  /** `trivia_trueorfalse`: the API key is checked first (a missing or empty key raises
      before the model is asked anything); otherwise the model's reply, or the exception its
      call raised, decides the outcome. */
  function Classify(apiKey: Option<string>, reply: Result<string, Fault>): (r: Result<Verdict, Fault>)
    ensures (apiKey == None || apiKey == Some("")) ==> r == Failure(MissingApiKey)
    ensures apiKey.Some? && apiKey.value != "" ==>
      match reply
      case Failure(e) => r == Failure(e)
      case Success(text) => r.Success? && r.value == ParseVerdict(text)
  {
    if apiKey.None? || apiKey.value == "" then Failure(MissingApiKey)
    else match reply
      case Failure(e) => Failure(e)
      case Success(text) => Success(ParseVerdict(text))
  }

  // ---------------------------------------------------------------------------------------
  // Properties of the mapping

  lemma AllSpaceConcat(a: string, b: string)
    requires AllSpace(a) && AllSpace(b)
    ensures AllSpace(a + b)
  {
    forall i | 0 <= i < |a + b|
      ensures IsSpace((a + b)[i])
    {
      if i < |a| {
        assert (a + b)[i] == a[i];
      } else {
        assert (a + b)[i] == b[i - |a|];
      }
    }
  }

  /** Whitespace around a reply never changes what it strips to. */
  lemma StripPadded(p: string, s: string, q: string)
    requires AllSpace(p) && AllSpace(q)
    ensures Strip(p + s + q) == Strip(s)
  {
    var i, j := StripIsSlice(s);
    var t := p + s + q;
    var i', j' := |p| + i, |p| + j;
    assert t[..i'] == p + s[..i];
    assert t[j'..] == s[j..] + q;
    assert t[i'..j'] == s[i..j];
    AllSpaceConcat(p, s[..i]);
    AllSpaceConcat(s[j..], q);
    if i < j {
      assert t[i'] == s[i] && t[j' - 1] == s[j - 1];
    }
    StripUnique(t, i', j');
  }

  /** The verdict is blind to surrounding whitespace: " False\n" reads as False. */
  lemma ParsePadded(p: string, reply: string, q: string)
    requires AllSpace(p) && AllSpace(q)
    ensures ParseVerdict(p + reply + q) == ParseVerdict(reply)
  {
    StripPadded(p, reply, q);
  }

  /** A text with no surrounding whitespace strips to itself. */
  lemma StripFixed(s: string)
    requires s == [] || (!IsSpace(s[0]) && !IsSpace(s[|s| - 1]))
    ensures Strip(s) == s
  {
    assert s[..0] == [] && s[|s|..] == [];
    StripUnique(s, 0, |s|);
  }

  /** A reply strips to a token (itself free of surrounding whitespace) exactly when it is
      that token with whitespace around it. */
  lemma StripsToIff(reply: string, token: string)
    requires token == [] || (!IsSpace(token[0]) && !IsSpace(token[|token| - 1]))
    ensures Strip(reply) == token <==>
      exists p, q :: AllSpace(p) && AllSpace(q) && reply == p + token + q
  {
    if Strip(reply) == token {
      var i, j := StripIsSlice(reply);
      assert reply == reply[..i] + token + reply[j..];
    }
    if exists p, q :: AllSpace(p) && AllSpace(q) && reply == p + token + q {
      var p, q :| AllSpace(p) && AllSpace(q) && reply == p + token + q;
      StripPadded(p, token, q);
      StripFixed(token);
    }
  }

  /** The verdict is True exactly when the reply is "True" up to surrounding whitespace. */
  lemma VerdictTrueIff(reply: string)
    ensures ParseVerdict(reply) == IsTrue <==>
      exists p, q :: AllSpace(p) && AllSpace(q) && reply == p + "True" + q
  {
    StripsToIff(reply, "True");
  }

  /** The verdict is False exactly when the reply is "False" up to surrounding whitespace. */
  lemma VerdictFalseIff(reply: string)
    ensures ParseVerdict(reply) == IsFalse <==>
      exists p, q :: AllSpace(p) && AllSpace(q) && reply == p + "False" + q
  {
    StripsToIff(reply, "False");
  }

  /** The comparison is case-sensitive: other spellings of the tokens are undecided. */
  lemma WrongCaseUndecided()
    ensures ParseVerdict("true") == Undecided
    ensures ParseVerdict("TRUE") == Undecided
    ensures ParseVerdict("false") == Undecided
  {
    StripFixed("true");
    assert "true"[0] != "True"[0];
    StripFixed("TRUE");
    assert "TRUE"[1] != "True"[1];
    StripFixed("false");
    assert "false"[0] != "False"[0];
  }

  /** The comparison is exact: punctuation, extra lines and the empty reply are undecided. */
  lemma MalformedUndecided()
    ensures ParseVerdict("True.") == Undecided
    ensures ParseVerdict("True\nFalse") == Undecided
    ensures ParseVerdict("") == Undecided
  {
    StripFixed("True.");
    StripFixed("True\nFalse");
  }

  /** The reply is trimmed before comparison: " False\n" reads as False. */
  lemma PaddedFalseDecided()
    ensures ParseVerdict(" False\n") == IsFalse
  {
    var p, q := " ", "\n";
    assert AllSpace(p) && AllSpace(q);
    assert p + "False" + q == " False\n";
    StripFixed("False");
    StripPadded(p, "False", q);
  }

  /** With no usable key the outcome does not depend on the model at all: the check
      precedes the call. */
  lemma KeyCheckedBeforeCall(apiKey: Option<string>, reply1: Result<string, Fault>, reply2: Result<string, Fault>)
    requires apiKey == None || apiKey == Some("")
    ensures Classify(apiKey, reply1) == Classify(apiKey, reply2) == Failure(MissingApiKey)
  {
  }
}
