/** The method token. The parser compares its letters with the string of a method that it guesses from
    the first ones; for two methods it does so without rejecting anything, and can run past the end of
    the string. Here is for which inputs it does. */
module HttpMethods {
  import opened HttpTypes
  import opened HttpArms
  import opened HttpMachine
  import opened HttpSplit

  /** The number of line ends in front. */
  function Lead(s: string): (n: nat)
    ensures n <= |s| && (forall i :: 0 <= i < n ==> s[i] == CR || s[i] == LF)
    ensures n < |s| ==> s[n] != CR && s[n] != LF
  {
    if s == [] || (s[0] != CR && s[0] != LF) then 0 else 1 + Lead(s[1..])
  }

  lemma LeadIs(s: string, n: nat)
    requires n <= |s| && (forall i :: 0 <= i < n ==> s[i] == CR || s[i] == LF)
    requires n < |s| ==> s[n] != CR && s[n] != LF
    ensures Lead(s) == n
  {
  }

  /** The letters that make the parser give up its first guess. */
  predicate StaysConnect(t: string)
  {
    && 0 < |t| && t[0] == 'C' && (1 < |t| ==> t[1] != 'H') && (2 < |t| ==> t[2] != 'P')
  }

  predicate StaysMkcol(t: string)
  {
    && 0 < |t| && t[0] == 'M' && (1 < |t| ==> t[1] != 'O' && t[1] != 'E' && t[1] != '-') && (2 < |t| ==> t[2] != 'A')
  }

  predicate NoNul(t: string) { forall i :: 0 <= i < |t| ==> t[i] != NUL }

  /** The parser is at its first guess m, and reads on past the place where the space should be. */
  predicate PastEnd(t: string, m: string)
  {
    |t| >= |m| + 2 && NoNul(t[..|m| + 2]) && t[|m|] != ' '
  }

  /** The texts that are read past the end of a method string: nothing has to match but the first letter.
      n is the number of header bytes counted before. */
  predicate Overruns(n: nat, s: string)
  {
    var l := Lead(s);
    var t := s[l..];
    || (StaysConnect(t) && PastEnd(t, "CONNECT") && n + l + 9 <= MAX_HEADER_SIZE)
    || (StaysMkcol(t) && PastEnd(t, "MKCOL") && n + l + 7 <= MAX_HEADER_SIZE)
  }

  predicate TokenState(st: State) { st.StartReq? || st.StartReqOrRes? || st.ResOrRespH? || st.ReqMethod? }

  /** All of s was read without leaving the method token. */
  predicate InToken(skip: bool, p: P, s: string)
  {
    Feed(skip, p, s).v.Go? && TokenState(Feed(skip, p, s).p.state) && (s != [] ==> InToken(skip, p, s[..|s| - 1]))
  }

  /** What the record says about the text s that was read since p. */
  predicate Reads(p: P, s: string, q: P)
  {
    var t := s[Lead(s)..];
    && q.nread == p.nread + |s| && TokenState(q.state)
    && (q.state.StartReq? || q.state.StartReqOrRes? <==> t == "")
    && (q.state.ResOrRespH? ==> t == "H")
    && (q.state.ReqMethod? ==>
         && q.index == |t| && NoNul(t) && |t| <= |MethodString(q.meth)| + 1
         && (q.meth.CONNECT? <==> StaysConnect(t)) && (q.meth.MKCOL? <==> StaysMkcol(t))
         && (|t| == |MethodString(q.meth)| + 1 ==>
              (q.meth.CONNECT? || q.meth.MKCOL?) && t[|MethodString(q.meth)|] != ' '))
  }

  lemma DropLast(s: string, ch: char, n: nat)
    requires n <= |s|
    ensures (s + [ch])[n..] == s[n..] + [ch]
  {
  }

  lemma LeadGrows(s: string, ch: char)
    ensures var t := s[Lead(s)..];
      var t' := (s + [ch])[Lead(s + [ch])..];
      t' == if t == "" && (ch == CR || ch == LF) then "" else t + [ch]
    ensures s[Lead(s)..] == "" <==> Lead(s) == |s|
  {
    hide Lead;
    var u := s + [ch];
    if Lead(s) == |s| && (ch == CR || ch == LF) {
      LeadIs(u, |u|);
    } else {
      LeadIs(u, Lead(s));
      DropLast(s, ch, Lead(s));
    }
  }

  lemma StepInToken(skip: bool, p: P, ch: char)
    requires TokenState(p.state)
    ensures var o := Step(skip, p, ch);
      if p.nread >= MAX_HEADER_SIZE then o.v.Fail?
      else var a := if p.state.ReqMethod? then ArmMethod(Counted(p), ch) else ArmStart(Counted(p), ch);
        o.v == a.v && o.p == a.p
  {
    hide ArmMethod, ArmStart, SpansOf, Notes;
  }

  /** The first letters. */
  lemma FirstLetter(q: P, ch: char)
    requires q.state.StartReq? || q.state.StartReqOrRes? || q.state.ResOrRespH?
    ensures var o := ArmStart(q, ch);
      o.v.Go? && TokenState(o.p.state) ==>
        && o.p.nread == q.nread && ch != NUL
        && if q.state.ResOrRespH? then ch == 'E' && o.p.state.ReqMethod? && o.p.index == 2 && o.p.meth == HEAD
           else if ch == CR || ch == LF then o.p == q
           else if o.p.state.ReqMethod? then
             o.p.index == 1 && (o.p.meth.CONNECT? <==> ch == 'C') && (o.p.meth.MKCOL? <==> ch == 'M')
           else o.p.state.ResOrRespH? && ch == 'H'
  {
  }

  lemma StartReads(p: P, s: string, q: P, ch: char)
    requires Reads(p, s, q) && !q.state.ReqMethod?
    ensures var o := ArmStart(Counted(q), ch);
      o.v.Go? && TokenState(o.p.state) ==> Reads(p, s + [ch], o.p)
  {
    var o, t := ArmStart(Counted(q), ch), s[Lead(s)..];
    FirstLetter(Counted(q), ch);
    LeadGrows(s, ch);
    hide ArmStart, MethodString;
    assert ParsingHeader(q.state);
    if o.v.Go? && o.p.state.ReqMethod? { MethodLengths(o.p.meth); }
  }

  /** One more letter of a method. */
  lemma GuessReads(q: P, t: string, ch: char)
    requires q.state.ReqMethod? && q.index == |t| && t != "" && ArmMethod(q, ch).v.Go?
    requires ArmMethod(q, ch).p.state.ReqMethod?
    requires |t| <= |MethodString(q.meth)|
    requires (q.meth.CONNECT? <==> StaysConnect(t)) && (q.meth.MKCOL? <==> StaysMkcol(t))
    ensures var m := ArmMethod(q, ch).p.meth;
      && (m.CONNECT? <==> StaysConnect(t + [ch])) && (m.MKCOL? <==> StaysMkcol(t + [ch]))
      && ArmMethod(q, ch).p == q.(index := q.index + 1, meth := m) && ch != NUL
      && |t| + 1 <= |MethodString(m)| + 1
      && (|t| == |MethodString(m)| ==> m == q.meth && (m.CONNECT? || m.MKCOL?) && ch != ' ')
  {
    var u := t + [ch];
    assert u[0] == t[0] && (1 < |t| ==> u[1] == t[1]) && (2 < |t| ==> u[2] == t[2]);
  }

  lemma MethodReads(p: P, s: string, q: P, ch: char)
    requires Reads(p, s, q) && q.state.ReqMethod?
    ensures var o := ArmMethod(Counted(q), ch);
      o.v.Go? && TokenState(o.p.state) ==> Reads(p, s + [ch], o.p)
  {
    var o, t := ArmMethod(Counted(q), ch), s[Lead(s)..];
    LeadGrows(s, ch);
    if o.v.Go? && TokenState(o.p.state) {
      IndexInside(Counted(q), ch);
      hide ArmMethod, MethodString, StaysConnect, StaysMkcol;
      GuessReads(Counted(q), t, ch);
    }
  }

  lemma IndexInside(q: P, ch: char)
    requires q.state.ReqMethod? && ArmMethod(q, ch).v.Go? && TokenState(ArmMethod(q, ch).p.state)
    ensures q.index <= |MethodString(q.meth)| && ArmMethod(q, ch).p.state.ReqMethod?
  {
  }

  /** The record after reading s, as long as the token goes on. */
  lemma {:induction false} TokenReads(skip: bool, p: P, s: string)
    requires (p.state.StartReq? || p.state.StartReqOrRes?) && InToken(skip, p, s)
    ensures Reads(p, s, Feed(skip, p, s).p)
    decreases |s|
  {
    hide Step, Reads, ArmMethod, ArmStart;
    if s == [] {
      ReadsNothing(p);
    } else {
      var n := |s| - 1;
      TokenReads(skip, p, s[..n]);
      var q := Feed(skip, p, s[..n]).p;
      StepInToken(skip, q, s[n]);
      assert s == s[..n] + [s[n]];
      if q.state.ReqMethod? { MethodReads(p, s[..n], q, s[n]); } else { StartReads(p, s[..n], q, s[n]); }
    }
  }

  lemma ReadsNothing(p: P)
    requires p.state.StartReq? || p.state.StartReqOrRes?
    ensures Reads(p, "", p)
  {
  }

  // ----- exactly when the method string is overrun

  /** The step that reads past the end. */
  lemma OverrunStep(skip: bool, p: P, s: string, q: P, ch: char)
    requires Reads(p, s, q) && Good(q)
    ensures Step(skip, q, ch).v.Undefined? <==>
      q.state.ReqMethod? && |s| - Lead(s) == |MethodString(q.meth)| + 1 && ch != NUL && q.nread < MAX_HEADER_SIZE
  {
    StepInToken(skip, q, ch);
    hide Step, ArmMethod, ArmStart, MethodString, StaysConnect, StaysMkcol;
    if q.nread < MAX_HEADER_SIZE {
      if q.state.ReqMethod? { GoodMethodCounted(q, ch); } else { StartDefined(Counted(q), ch); }
    }
  }

  lemma GoodMethodCounted(q: P, ch: char)
    requires Good(q) && q.state.ReqMethod?
    ensures ArmMethod(Counted(q), ch).v.Undefined? <==> ch != NUL && q.index == |MethodString(q.meth)| + 1
  {
    GoodCounted(q);
    hide ArmMethod, MethodString, Good;
    GoodMethod(Counted(q), ch);
  }

  lemma StartDefined(q: P, ch: char)
    requires q.state.StartReq? || q.state.StartReqOrRes? || q.state.ResOrRespH?
    ensures !ArmStart(q, ch).v.Undefined?
  {
  }

  lemma {:induction false} GoodToken(skip: bool, p: P, s: string)
    requires Good(p) && InToken(skip, p, s)
    ensures Good(Feed(skip, p, s).p)
    decreases |s|
  {
    hide Step, Good;
    if s != [] {
      var n := |s| - 1;
      GoodToken(skip, p, s[..n]);
      GoodStep(skip, Feed(skip, p, s[..n]).p, s[n]);
    }
  }

  lemma PastEndIs(t: string, u: string, m: string)
    requires |t| == |m| + 1 < |u| && t == u[..|t|] && NoNul(t) && u[|t|] != NUL && t[|m|] != ' '
    ensures PastEnd(u, m)
  {
    var v := u[..|m| + 2];
    forall i | 0 <= i < |v| ensures v[i] != NUL {
      if i < |t| { assert v[i] == t[i]; } else { assert v[i] == u[|t|]; }
    }
    assert u[|m|] == t[|m|];
  }

  lemma StaysOn(t: string, u: string)
    requires 3 <= |t| <= |u| && t == u[..|t|]
    ensures (StaysConnect(t) ==> StaysConnect(u)) && (StaysMkcol(t) ==> StaysMkcol(u))
  {
    assert u[0] == t[0] && u[1] == t[1] && u[2] == t[2];
  }

  /** A text that is read past the end overruns. */
  lemma OverrunOnly(skip: bool, p: P, s: string, k: nat)
    requires (p.state.StartReq? || p.state.StartReqOrRes?) && Good(p) && k < |s| && InToken(skip, p, s[..k])
    requires Step(skip, Feed(skip, p, s[..k]).p, s[k]).v.Undefined?
    ensures Overruns(p.nread, s)
  {
    hide Step, Feed, InToken, Good, StaysConnect, StaysMkcol, PastEnd, NoNul;
    var a, q := s[..k], Feed(skip, p, s[..k]).p;
    TokenReads(skip, p, a);
    GoodToken(skip, p, a);
    OverrunStep(skip, p, a, q, s[k]);
    var l, m := Lead(a), MethodString(q.meth);
    MethodLengths(q.meth);
    LeadIs(s, l);
    var t, u := a[l..], s[l..];
    assert t == u[..|t|] && u[|t|] == s[k];
    PastEndIs(t, u, m);
    StaysOn(t, u);
  }

  /** The string that is overrun. */
  function Guess(s: string): string
  {
    if Lead(s) < |s| && s[Lead(s)] == 'C' then "CONNECT" else "MKCOL"
  }

  lemma StuckStep(q: P, ch: char)
    requires q.state.ReqMethod? && (q.meth.CONNECT? || q.meth.MKCOL?) && q.index <= |MethodString(q.meth)|
    requires ch != NUL && (q.index == |MethodString(q.meth)| ==> ch != ' ')
    ensures ArmMethod(q, ch).v.Go? && ArmMethod(q, ch).p.state.ReqMethod?
  {
  }

  lemma StartStep(q: P, ch: char)
    requires (q.state.StartReq? || q.state.StartReqOrRes?) && ch in {CR, LF, 'C', 'M'}
    ensures ArmStart(q, ch).v.Go? && TokenState(ArmStart(q, ch).p.state)
  {
  }

  /** The text from its first letter on. */
  lemma OverrunText(n: nat, s: string)
    requires Overruns(n, s)
    ensures var l, m, t := Lead(s), Guess(s), s[Lead(s)..];
      && PastEnd(t, m) && t[0] in {'C', 'M'} && n + l + |m| + 2 <= MAX_HEADER_SIZE
      && (m == "CONNECT" ==> StaysConnect(t)) && (m == "MKCOL" ==> StaysMkcol(t)) && (m == "CONNECT" || m == "MKCOL")
  {
  }

  lemma GuessedMethod(q: P, t: string, u: string, m: string)
    requires 0 < |t| <= |u| && t == u[..|t|] && q.state.ReqMethod?
    requires (q.meth.CONNECT? <==> StaysConnect(t)) && (q.meth.MKCOL? <==> StaysMkcol(t))
    requires (m == "CONNECT" && StaysConnect(u)) || (m == "MKCOL" && StaysMkcol(u))
    ensures (q.meth.CONNECT? || q.meth.MKCOL?) && MethodString(q.meth) == m
  {
  }

  /** What an overrunning text has at its j-th byte, in terms of the record that has read the bytes before. */
  lemma OverrunByte(p: P, s: string, j: nat, q: P)
    requires Overruns(p.nread, s) && j < Lead(s) + |Guess(s)| + 2 && Reads(p, s[..j], q)
    ensures j < |s| && q.nread < MAX_HEADER_SIZE
    ensures j <= Lead(s) ==> (q.state.StartReq? || q.state.StartReqOrRes?) && s[j] in {CR, LF, 'C', 'M'}
    ensures j > Lead(s) ==>
      && q.state.ReqMethod? && (q.meth.CONNECT? || q.meth.MKCOL?) && MethodString(q.meth) == Guess(s)
      && q.index == j - Lead(s) && s[j] != NUL && (q.index == |Guess(s)| ==> s[j] != ' ')
  {
    OverrunText(p.nread, s);
    hide Overruns, StaysConnect, StaysMkcol, MethodString, Guess;
    var l, a := Lead(s), s[..j];
    var u, t := s[l..], a[Lead(a)..];
    LeadIs(a, if j <= l then j else l);
    assert u[..|Guess(s)| + 2][if j > l then j - l else 0] == s[if j > l then j else l];
    if j > l {
      assert t == u[..|t|] && |t| == j - l;
      assert t[0] == u[0];
      GuessedMethod(q, t, u, Guess(s));
    }
  }

  lemma {:induction false} OverrunGoes(skip: bool, p: P, s: string, j: nat)
    requires (p.state.StartReq? || p.state.StartReqOrRes?) && Overruns(p.nread, s) && j < Lead(s) + |Guess(s)| + 2
    ensures j < |s| && InToken(skip, p, s[..j])
  {
    hide Step, Reads, Overruns, ArmMethod, ArmStart, MethodString, Guess;
    if j == 0 {
      assert s[..0] == "";
      ReadsNothing(p);
      OverrunByte(p, s, 0, p);
    } else {
      OverrunGoes(skip, p, s, j - 1);
      var a := s[..j - 1];
      var q := Feed(skip, p, a).p;
      TokenReads(skip, p, a);
      OverrunByte(p, s, j - 1, q);
      StepInToken(skip, q, s[j - 1]);
      if j - 1 <= Lead(s) { StartStep(Counted(q), s[j - 1]); } else { StuckStep(Counted(q), s[j - 1]); }
      assert s[..j][..j - 1] == a;
      TokenReads(skip, p, s[..j]);
      OverrunByte(p, s, j, Feed(skip, p, s[..j]).p);
    }
  }

  /** Exactly the texts that start with C or M, never leave CONNECT or MKCOL through the letters that lead
      to other methods, have no NUL, and no space where the string ends, followed by one more byte. */
  lemma MethodOverrun(skip: bool, p: P, s: string)
    requires (p.state.StartReq? || p.state.StartReqOrRes?) && Good(p)
    ensures var r := Feed(skip, p, s);
      r.v.Undefined? && InToken(skip, p, s[..r.used]) <==> Overruns(p.nread, s)
  {
    var r := Feed(skip, p, s);
    hide Step, Feed, InToken, Reads, Overruns, Good;
    if r.v.Undefined? && InToken(skip, p, s[..r.used]) {
      FeedStops(skip, p, s);
      OverrunOnly(skip, p, s, r.used);
    }
    if Overruns(p.nread, s) {
      var k := Lead(s) + |Guess(s)| + 1;
      OverrunGoes(skip, p, s, k);
      var q := Feed(skip, p, s[..k]).p;
      TokenReads(skip, p, s[..k]);
      GoodToken(skip, p, s[..k]);
      OverrunByte(p, s, k, q);
      LeadIs(s[..k], Lead(s));
      OverrunStep(skip, p, s[..k], q, s[k]);
      TokenGoes(skip, p, s[..k]);
      StepStops(skip, p, s, k);
    }
  }

  lemma TokenGoes(skip: bool, p: P, s: string)
    requires InToken(skip, p, s)
    ensures Feed(skip, p, s).v.Go?
  {
  }

  /** A complete method token, whichever it is, and any text with another first letter, stay inside. */
  lemma TokensStayInside(n: nat, s: string, m: Method, rest: string)
    requires s == MethodString(m) + " " + rest || (s != "" && s[0] != 'C' && s[0] != 'M' && s[0] != CR && s[0] != LF)
    ensures !Overruns(n, s)
  {
    var w := MethodString(m) + " ";
    LeadIs(s, 0);
    assert s[0..] == s;
    if s == w + rest { assert forall i :: 0 <= i < |w| ==> s[i] == w[i]; }
  }
}
