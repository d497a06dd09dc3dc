/** The AL parser's error engine on values: the sticky error flag (State),
    the HasErrors flag and the registry of anchor tokens already reported,
    and what one token validation does to them. The class AlParsers.AlParser
    keeps the same three pieces as fields and is proved to follow these
    functions step by step. */
module ErrorEngine {
  import opened Tokens
  import opened Listeners

  /** State (0 clean, 1 error; the setter accepts any int), HasErrors and
      the deduplication registry. */
  datatype Session = Session(state: int, hasErrors: bool, registry: set<Token>)

  /** One validation: the token handed in (None for a null token), whether
      it has the expected shape, and the message used if it does not. */
  datatype Check = Check(token: Option<Token>, matches: bool, message: string)

  /** The session after raising an error, and the errors announced. */
  datatype Effect = Effect(after: Session, raised: seq<ParserError>)

  /** The session after a validation, its verdict, and the errors announced. */
  datatype Verdict = Verdict(after: Session, ok: bool, raised: seq<ParserError>)

  /** The State setter: storing 1 forces HasErrors; storing anything else
      leaves HasErrors as it was. */
  function SetState(s: Session, value: int): Session
  {
    Session(value, if value == 1 then true else s.hasErrors, s.registry)
  }

  /** GenerateParserError: always sets HasErrors; announces an error only
      when its start token has not been reported before, and then records
      that token. */
  function ReportError(s: Session, start: Token, end: Token, message: string): (e: Effect)
    ensures e.after.hasErrors && e.after.state == s.state
    ensures e.after.registry == s.registry + {start}
    ensures e.raised == if start in s.registry then [] else [ParserError(start, end, message)]
  {
    var flagged := s.(hasErrors := true);
    if start in s.registry then Effect(flagged, [])
    else Effect(flagged.(registry := s.registry + {start}), [ParserError(start, end, message)])
  }

  /** ValidateToken, common to its four overloads once the shape test is
      done: a null token changes nothing and fails; a matching token clears
      the sticky state; a mismatch announces an error only from the clean
      state, then enters the error state. */
  function Validate(s: Session, c: Check): (v: Verdict)
    ensures c.token.None? ==> v == Verdict(s, false, [])
    ensures c.token.Some? && c.matches ==> v == Verdict(s.(state := 0), true, [])
    ensures c.token.Some? && !c.matches ==>
      && !v.ok && v.after.state == 1 && v.after.hasErrors
      && (v.raised != [] <==> s.state == 0 && c.token.value !in s.registry)
    ensures s.registry <= v.after.registry
    ensures s.hasErrors ==> v.after.hasErrors
    ensures |v.raised| <= 1
    ensures v.raised != [] ==>
      && v.raised[0] == ParserError(c.token.value, c.token.value, c.message)
      && c.token.value !in s.registry && c.token.value in v.after.registry
  {
    if c.token.None? then Verdict(s, false, [])
    else if !c.matches then
      var e := if s.state == 0 then ReportError(s, c.token.value, c.token.value, c.message) else Effect(s, []);
      Verdict(SetState(e.after, 1), false, e.raised)
    else Verdict(SetState(s, 0), true, [])
  }

  /** The verdicts of a sequence of validations run one after the other. */
  function Trace(s: Session, cs: seq<Check>): (t: seq<Verdict>)
    ensures |t| == |cs|
    decreases |cs|
  {
    if cs == [] then []
    else
      var v := Validate(s, cs[0]);
      [v] + Trace(v.after, cs[1..])
  }

  /** The session before validation i of the sequence (i == |cs|: after all). */
  function Before(s: Session, cs: seq<Check>, i: nat): Session
    requires i <= |cs|
  {
    if i == 0 then s else Trace(s, cs)[i - 1].after
  }

  /** All errors announced by a sequence of verdicts, in order. */
  function Raised(t: seq<Verdict>): seq<ParserError>
  {
    if t == [] then [] else t[0].raised + Raised(t[1..])
  }

  /** A validation that succeeds: a real token of the expected shape. */
  predicate Succeeds(c: Check)
  {
    c.token.Some? && c.matches
  }

  /** A validation that fails on a real token. */
  predicate Mismatches(c: Check)
  {
    c.token.Some? && !c.matches
  }

  /** Validation i of a sequence sees exactly the session left by the ones before it. */
  lemma {:induction false} TraceStep(s: Session, cs: seq<Check>, i: nat)
    requires i < |cs|
    ensures Trace(s, cs)[i] == Validate(Before(s, cs, i), cs[i])
    ensures Before(s, cs, i + 1) == Trace(s, cs)[i].after
    decreases i
  {
    if i > 0 {
      var v := Validate(s, cs[0]);
      TraceStep(v.after, cs[1..], i - 1);
      assert Before(s, cs, i) == Before(v.after, cs[1..], i - 1);
    }
  }

  /** The registry only grows along a sequence of validations. */
  lemma {:induction false} RegistryGrows(s: Session, cs: seq<Check>, i: nat, j: nat)
    requires i <= j <= |cs|
    ensures Before(s, cs, i).registry <= Before(s, cs, j).registry
  {
    if i < j {
      RegistryGrows(s, cs, i, j - 1);
      TraceStep(s, cs, j - 1);
    }
  }

  /** While no validation succeeds, a session that is not clean stays in
      the error state. */
  lemma {:induction false} StaysSticky(s: Session, cs: seq<Check>, i: nat, j: nat)
    requires i < j <= |cs|
    requires Before(s, cs, i).state != 0 || Mismatches(cs[i])
    requires forall k :: i <= k < j ==> !Succeeds(cs[k])
    ensures Before(s, cs, j).state != 0
  {
    TraceStep(s, cs, j - 1);
    if i < j - 1 {
      StaysSticky(s, cs, i, j - 1);
    }
  }

  /** At most one diagnostic per cascade: between any two validations that
      announce an error there is one that succeeded. */
  lemma OnePerCascade(s: Session, cs: seq<Check>, i: nat, j: nat)
    requires i < j < |cs|
    requires Trace(s, cs)[i].raised != [] && Trace(s, cs)[j].raised != []
    ensures exists k :: i < k < j && Succeeds(cs[k])
  {
    TraceStep(s, cs, i);
    TraceStep(s, cs, j);
    if forall k :: i < k < j ==> !Succeeds(cs[k]) {
      StaysSticky(s, cs, i, j);
      assert false;
    }
  }

  /** At most one diagnostic per anchor token: two announcements in one
      sequence have different start tokens, and neither token had been
      reported before the sequence began. */
  lemma OnePerAnchor(s: Session, cs: seq<Check>, i: nat, j: nat)
    requires i < j < |cs|
    requires Trace(s, cs)[i].raised != [] && Trace(s, cs)[j].raised != []
    ensures Trace(s, cs)[i].raised[0].startToken != Trace(s, cs)[j].raised[0].startToken
    ensures Trace(s, cs)[i].raised[0].startToken !in s.registry
    ensures Trace(s, cs)[j].raised[0].startToken !in s.registry
  {
    TraceStep(s, cs, i);
    TraceStep(s, cs, j);
    RegistryGrows(s, cs, 0, i);
    RegistryGrows(s, cs, i + 1, j);
    RegistryGrows(s, cs, 0, j);
  }

  /** After a sequence of validations HasErrors holds exactly when it held
      before or one of them failed on a real token. */
  lemma {:induction false} HasErrorsAfter(s: Session, cs: seq<Check>)
    ensures Before(s, cs, |cs|).hasErrors <==> s.hasErrors || exists k :: 0 <= k < |cs| && Mismatches(cs[k])
    decreases |cs|
  {
    if cs != [] {
      var v := Validate(s, cs[0]);
      HasErrorsAfter(v.after, cs[1..]);
      var n := |cs|;
      assert Before(s, cs, n) == Before(v.after, cs[1..], n - 1);
      if exists k :: 0 <= k < n - 1 && Mismatches(cs[1..][k]) {
        var k :| 0 <= k < n - 1 && Mismatches(cs[1..][k]);
        assert Mismatches(cs[k + 1]);
      }
      if exists k :: 0 <= k < n && Mismatches(cs[k]) {
        var k :| 0 <= k < n && Mismatches(cs[k]);
        if k > 0 {
          assert Mismatches(cs[1..][k - 1]);
        }
      }
    }
  }

  /** The scripted cascade fail, fail, succeed, fail on distinct fresh
      tokens from a clean session announces exactly two errors: the first
      and the last. */
  lemma FailFailSucceedFail(s: Session, t1: Token, t2: Token, t3: Token, t4: Token, m1: string, m2: string, m3: string, m4: string)
    requires s.state == 0 && t1 !in s.registry && t4 !in s.registry && t1 != t4
    ensures var cs := [Check(Some(t1), false, m1), Check(Some(t2), false, m2),
                       Check(Some(t3), true, m3), Check(Some(t4), false, m4)];
      Raised(Trace(s, cs)) == [ParserError(t1, t1, m1), ParserError(t4, t4, m4)]
  {
    var cs := [Check(Some(t1), false, m1), Check(Some(t2), false, m2),
               Check(Some(t3), true, m3), Check(Some(t4), false, m4)];
    var v1 := Validate(s, cs[0]);
    var v2 := Validate(v1.after, cs[1]);
    var v3 := Validate(v2.after, cs[2]);
    var v4 := Validate(v3.after, cs[3]);
    var c1, c2, c3 := cs[1..], cs[2..], cs[3..];
    assert c1[1..] == c2 && c2[1..] == c3 && c3[1..] == [];
    assert Trace(v3.after, c3) == [v4];
    assert Trace(v2.after, c2) == [v3, v4];
    assert Trace(v1.after, c1) == [v2, v3, v4];
    assert Trace(s, cs) == [v1, v2, v3, v4];
    var t := [v1, v2, v3, v4];
    assert t[1..] == [v2, v3, v4] && [v2, v3, v4][1..] == [v3, v4] && [v3, v4][1..] == [v4];
    assert Raised([v4]) == v4.raised + Raised([]);
    assert Raised([v3, v4]) == v3.raised + v4.raised;
    assert Raised([v2, v3, v4]) == v2.raised + v3.raised + v4.raised;
    assert v1.raised == [ParserError(t1, t1, m1)] && v2.raised == [] && v3.raised == [];
  }
}
