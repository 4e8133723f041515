/** `strtok(text, ",")` as section 7.24.5.8 of ISO C11 describes it: each call
    skips the commas in front of it, returns the run up to the next comma, and
    resumes after that comma; once the text is used up every further call
    returns a null pointer. The in-place overwriting of the comma by NUL is not
    modelled: a call returns the token and the text where the next call resumes. */
module CStrTok {
  import opened Ascii
  import opened Wrappers

  const Comma: Byte := ','

  /** One call of `strtok(_, ",")`. */
  function NextToken(s: seq<Byte>): (r: (Option<seq<Byte>>, seq<Byte>))
    ensures r.0.Some? ==> |r.0.value| > 0 && Comma !in r.0.value
    ensures |r.1| < |s| || (r.0.None? && r.1 == [])
  {
    if |s| == 0 then (None, [])
    else if s[0] == Comma then NextToken(s[1..])
    else
      var n := IndexOf(s, Comma);
      (Some(s[..n]), if n < |s| then s[n + 1..] else [])
  }

  /** The tokens returned by `count` successive calls that start on `s`; the
      list stops at the first null pointer. */
  function StrTok(s: seq<Byte>, count: nat): (ts: seq<seq<Byte>>)
    ensures |ts| <= count
    ensures forall i :: 0 <= i < |ts| ==> |ts[i]| > 0 && Comma !in ts[i]
    decreases count
  {
    if count == 0 then []
    else
      match NextToken(s).0
      case None => []
      case Some(t) => [t] + StrTok(NextToken(s).1, count - 1)
  }

  /* ---------------- Reference definition: split, then drop empty fields ---------------- */

  /** The comma-separated fields of `s`: one more field than there are commas. */
  function Fields(s: seq<Byte>): (fs: seq<seq<Byte>>)
    ensures |fs| > 0
    decreases |s|
  {
    var n := IndexOf(s, Comma);
    if n == |s| then [s] else [s[..n]] + Fields(s[n + 1..])
  }

  /** The non-empty members of `fs`, in their order. */
  function NonEmpty(fs: seq<seq<Byte>>): seq<seq<Byte>> {
    if |fs| == 0 then []
    else (if |fs[0]| > 0 then [fs[0]] else []) + NonEmpty(fs[1..])
  }

  /** The tokens `strtok` finds in `s`: the non-empty comma-separated fields. */
  function Tokens(s: seq<Byte>): seq<seq<Byte>> {
    NonEmpty(Fields(s))
  }

  /** An empty text holds no token. */
  lemma NoTextNoTokens()
    ensures Tokens([]) == []
  {
    var empty: seq<seq<Byte>> := [[]];
    assert Fields([]) == empty;
    assert NonEmpty(empty) == [] by { assert empty[1..] == []; }
  }

  /** One call of `strtok` takes the first non-empty field off the reference
      list, or returns null exactly when there is none. */
  lemma {:induction false} NextTokenIsFirstToken(s: seq<Byte>)
    ensures NextToken(s).0.None? <==> Tokens(s) == []
    ensures NextToken(s).0.Some? ==>
              Tokens(s) == [NextToken(s).0.value] + Tokens(NextToken(s).1)
    decreases |s|
  {
    if |s| == 0 {
      assert Fields(s) == [s];
    } else if s[0] == Comma {
      assert IndexOf(s, Comma) == 0;
      assert Fields(s) == [[]] + Fields(s[1..]);
      assert NonEmpty(Fields(s)) == NonEmpty(Fields(s[1..])) by {
        assert ([[]] + Fields(s[1..]))[1..] == Fields(s[1..]);
      }
      NextTokenIsFirstToken(s[1..]);
    } else {
      var n := IndexOf(s, Comma);
      assert n > 0;
      if n == |s| {
        assert Fields(s) == [s];
        assert NonEmpty([s]) == [s] + NonEmpty([]) by {
          assert [s][1..] == [];
        }
        var empty: seq<seq<Byte>> := [[]];
        assert Fields([]) == empty;
        assert NonEmpty(empty) == [] by { assert empty[1..] == []; }
        assert s[..n] == s;
      } else {
        assert Fields(s) == [s[..n]] + Fields(s[n + 1..]);
        assert ([s[..n]] + Fields(s[n + 1..]))[1..] == Fields(s[n + 1..]);
      }
    }
  }

  /** `count` successive calls return the first `count` reference tokens, or
      all of them when there are fewer. */
  lemma {:induction false} StrTokIsTokens(s: seq<Byte>, count: nat)
    ensures StrTok(s, count) == Tokens(s)[..if count < |Tokens(s)| then count else |Tokens(s)|]
    decreases count
  {
    NextTokenIsFirstToken(s);
    if count > 0 && NextToken(s).0.Some? {
      var rest := NextToken(s).1;
      StrTokIsTokens(rest, count - 1);
      var ts := Tokens(s);
      assert ts == [NextToken(s).0.value] + Tokens(rest);
    }
  }
}
