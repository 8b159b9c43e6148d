/** Exactly which texts the parser takes for which method. It is more lenient than the names: where it has only
    guessed CONNECT or MKCOL, letters need not match. */
module HttpTokens {
  import opened HttpTypes
  import opened HttpArms
  import opened HttpMachine
  import opened HttpSplit
  import opened HttpMessage
  import opened HttpMethods
  import opened HttpTables
  import opened HttpTargets

  /** The text is the name of the method, or one of four patterns: "C?PY" for COPY, "M?ACTIVITY" for MKACTIVITY, and any
      text of the right length that never leaves the guess CONNECT or MKCOL. */
  predicate TakenFor(t: string, m: Method)
  {
    || t == MethodString(m)
    || (m == COPY && |t| == 4 && t[0] == 'C' && t[1] !in {'H', NUL} && t[2..] == "PY")
    || (m == MKACTIVITY && |t| == 10 && t[0] == 'M' && t[1] !in {'O', 'E', '-', NUL} && t[2..] == "ACTIVITY")
    || (m == CONNECT && |t| == 7 && StaysConnect(t) && NoNul(t))
    || (m == MKCOL && |t| == 5 && StaysMkcol(t) && NoNul(t))
  }

  /** All of the text is read as letters of a method, and a space after it ends the method m. */
  predicate EndsAt(skip: bool, p: P, t: string, m: Method)
    decreases |t|
  {
    var o := Step(skip, p, if t == "" then ' ' else t[0]);
    p.state.ReqMethod? && o.v.Go? &&
    if t == "" then o.p.state.ReqSpacesBeforeUrl? && o.p.meth == m else EndsAt(skip, o.p, t[1..], m)
  }

  lemma {:induction false} EndsFeed(skip: bool, p: P, t: string, m: Method)
    requires EndsAt(skip, p, t, m)
    ensures var r := Feed(skip, p, t + " "); r.v.Go? && r.p.state.ReqSpacesBeforeUrl? && r.p.meth == m
    decreases |t|
  {
    hide Step, Feed;
    if t == "" {
      assert t + " " == " ";
      FeedOne(skip, p, ' ');
    } else {
      assert t + " " == [t[0]] + (t[1..] + " ");
      FirstByte(skip, p, t[0], t[1..] + " ");
      EndsFeed(skip, Step(skip, p, t[0]).p, t[1..], m);
    }
  }

  /** A record in the middle of a method, with room for the rest of the text. */
  predicate Guessing(p: P, g: Method, i: nat, t: string)
  {
    p.state.ReqMethod? && p.meth == g && p.index == i <= |MethodString(g)| && p.nread + |t| < MAX_HEADER_SIZE
  }

  function Next(p: P, m: Method): P { p.(meth := m, index := p.index + 1, nread := p.nread + 1) }

  /** One byte: it ends the method, confirms a letter, leads to another guess, or is rejected. */
  lemma LetterStep(skip: bool, p: P, g: Method, i: nat, c: char)
    requires p.state.ReqMethod? && p.meth == g && p.index == i <= |MethodString(g)| && p.nread < MAX_HEADER_SIZE
    ensures var o, s := Step(skip, p, c), MethodString(g);
      if c == NUL then o.v.Fail?
      else if c == ' ' && i == |s| then o.v.Go? && o.p == Next(p, g).(state := ReqSpacesBeforeUrl)
      else if i < |s| && c == s[i] then o.v.Go? && o.p == Next(p, g)
      else if Redirect(g, i, c).None? then o.v.Fail?
      else o.v.Go? && o.p == Next(p, Redirect(g, i, c).value)
  {
    hide MethodString, Redirect;
  }

  /** From where no letter can lead to another guess. */
  predicate Rigid(g: Method, i: nat)
  {
    g != CONNECT && g != MKCOL && (g == POST ==> i >= 2) && (g == UNLOCK ==> i >= 3) && (g == PROPFIND ==> i >= 5)
  }

  lemma RigidHolds(g: Method, i: nat, c: char)
    requires Rigid(g, i)
    ensures Redirect(g, i, c).None?
  {
  }

  lemma NoSpaceIn(g: Method, i: nat)
    requires i < |MethodString(g)|
    ensures MethodString(g)[i] != ' ' && MethodString(g)[i] != NUL
  {
  }

  lemma SpaceLeaves(skip: bool, p: P, t: string, m: Method)
    requires !p.state.ReqMethod?
    ensures !EndsAt(skip, p, t, m)
  {
  }

  lemma EndsIs(skip: bool, p: P, m: Method)
    ensures EndsAt(skip, p, "", m) <==>
      var o := Step(skip, p, ' ');
      p.state.ReqMethod? && o.v.Go? && o.p.state.ReqSpacesBeforeUrl? && o.p.meth == m
  {
    hide Step;
  }

  lemma EndsHere(skip: bool, p: P, g: Method, i: nat, m: Method)
    requires Guessing(p, g, i, "")
    ensures EndsAt(skip, p, "", m) <==> i == |MethodString(g)| && m == g
  {
    hide MethodString, Redirect, Step, EndsAt;
    EndsIs(skip, p, m);
    LetterStep(skip, p, g, i, ' ');
    if i < |MethodString(g)| { NoSpaceIn(g, i); }
  }

  /** The guess that a letter leads to. */
  function Guess(g: Method, i: nat, c: char): Option<Method>
  {
    if c == NUL || (c == ' ' && i == |MethodString(g)|) then None
    else if i < |MethodString(g)| && c == MethodString(g)[i] then Some(g)
    else Redirect(g, i, c)
  }

  lemma EndsOn(skip: bool, p: P, t: string, m: Method)
    requires t != ""
    ensures var o := Step(skip, p, t[0]);
      EndsAt(skip, p, t, m) <==> p.state.ReqMethod? && o.v.Go? && EndsAt(skip, o.p, t[1..], m)
  {
    hide Step;
  }

  lemma EndsNext(skip: bool, p: P, g: Method, i: nat, t: string, m: Method)
    requires Guessing(p, g, i, t) && t != ""
    ensures var h := Guess(g, i, t[0]);
      EndsAt(skip, p, t, m) <==> h.Some? && EndsAt(skip, Next(p, h.value), t[1..], m)
  {
    hide MethodString, Redirect, Step, EndsAt;
    EndsOn(skip, p, t, m);
    LetterStep(skip, p, g, i, t[0]);
    if t[0] == ' ' && i == |MethodString(g)| {
      SpaceLeaves(skip, Next(p, g).(state := ReqSpacesBeforeUrl), t[1..], m);
    }
  }

  /** Then only the rest of the name is accepted. */
  lemma {:induction false} RigidRest(skip: bool, p: P, g: Method, i: nat, t: string, m: Method)
    requires Guessing(p, g, i, t) && Rigid(g, i)
    ensures EndsAt(skip, p, t, m) <==> m == g && t == MethodString(g)[i..]
    decreases |t|
  {
    var s := MethodString(g);
    hide MethodString, Redirect, EndsAt;
    if t == "" {
      EndsHere(skip, p, g, i, m);
      assert i < |s| ==> s[i..] != "";
    } else {
      EndsNext(skip, p, g, i, t, m);
      RigidHolds(g, i, t[0]);
      if i < |s| {
        NoSpaceIn(g, i);
        assert s[i..][0] == s[i];
        if t[0] == s[i] {
          RigidRest(skip, Next(p, g), g, i + 1, t[1..], m);
          assert s[i..] == [s[i]] + s[i + 1..] && t == [t[0]] + t[1..];
        }
      }
    }
  }

  /** From the fourth letter on CONNECT and MKCOL are not left any more, whatever comes. */
  lemma {:induction false} LenientRest(skip: bool, p: P, g: Method, i: nat, t: string, m: Method)
    requires Guessing(p, g, i, t) && (g == CONNECT || g == MKCOL) && i >= 3
    ensures EndsAt(skip, p, t, m) <==> m == g && |t| == |MethodString(g)| - i && NoNul(t)
    decreases |t|
  {
    var s := MethodString(g);
    hide MethodString, Redirect, EndsAt;
    if t == "" {
      EndsHere(skip, p, g, i, m);
    } else {
      EndsNext(skip, p, g, i, t, m);
      Lenient(g, i, t[0]);
      assert t == [t[0]] + t[1..];
      if t[0] == NUL {
        assert !NoNul(t);
      } else if i < |s| {
        NoSpaceIn(g, i);
        LenientRest(skip, Next(p, g), g, i + 1, t[1..], m);
        assert NoNul(t) <==> NoNul(t[1..]) by { NoNulCons(t); }
      } else if t[0] != ' ' {
        PastName(skip, Next(p, g), g, t[1..], m);
      }
    }
  }

  lemma NoNulCons(t: string)
    requires t != ""
    ensures NoNul(t) <==> t[0] != NUL && NoNul(t[1..])
  {
    assert t == [t[0]] + t[1..];
  }

  lemma Lenient(g: Method, i: nat, c: char)
    requires (g == CONNECT || g == MKCOL) && i >= 3
    ensures Redirect(g, i, c) == Some(g)
  {
  }

  /** One letter past the name nothing is accepted. */
  lemma PastName(skip: bool, p: P, g: Method, t: string, m: Method)
    requires p.state.ReqMethod? && p.meth == g && p.index == |MethodString(g)| + 1 && p.nread < MAX_HEADER_SIZE
    ensures !EndsAt(skip, p, t, m)
  {
    hide MethodString;
    var c := if t == "" then ' ' else t[0];
    assert !Step(skip, p, c).v.Go?;
  }

  // ----- from the first letter on

  /** What EndsAt asks of the letters after a guess, until nothing can change it any more. */
  predicate RestFor(g: Method, i: nat, t: string, m: Method)
    requires i <= |MethodString(g)|
    decreases |t|
  {
    if Rigid(g, i) then m == g && t == MethodString(g)[i..]
    else if i >= 3 && (g == CONNECT || g == MKCOL) then m == g && |t| == |MethodString(g)| - i && NoNul(t)
    else
      t != "" && var h := Guess(g, i, t[0]);
      h.Some? && i + 1 <= |MethodString(h.value)| && RestFor(h.value, i + 1, t[1..], m)
  }

  lemma GuessFits(g: Method, i: nat, c: char)
    requires i < |MethodString(g)| && i >= 1
    ensures Guess(g, i, c).Some? ==> i + 1 <= |MethodString(Guess(g, i, c).value)|
  {
  }

  lemma NotYetWhole(g: Method, i: nat)
    requires 1 <= i <= |MethodString(g)| && !Rigid(g, i) && !(i >= 3 && (g == CONNECT || g == MKCOL))
    ensures i < |MethodString(g)|
  {
  }

  lemma {:induction false} RestExact(skip: bool, p: P, g: Method, i: nat, t: string, m: Method)
    requires Guessing(p, g, i, t) && i >= 1
    ensures EndsAt(skip, p, t, m) <==> RestFor(g, i, t, m)
    decreases |t|
  {
    hide MethodString, Redirect, EndsAt, Guess;
    if Rigid(g, i) {
      RigidRest(skip, p, g, i, t, m);
    } else if i >= 3 && (g == CONNECT || g == MKCOL) {
      LenientRest(skip, p, g, i, t, m);
    } else {
      NotYetWhole(g, i);
      if t == "" {
        EndsHere(skip, p, g, i, m);
      } else {
        EndsNext(skip, p, g, i, t, m);
        var h := Guess(g, i, t[0]);
        GuessFits(g, i, t[0]);
        if h.Some? { RestExact(skip, Next(p, h.value), h.value, i + 1, t[1..], m); }
      }
    }
  }

  // ----- the texts

  lemma NextConnect(c: char)
    ensures Guess(CONNECT, 1, c) == if c == NUL then None else if c == 'H' then Some(CHECKOUT) else Some(CONNECT)
    ensures Guess(CONNECT, 2, c) == if c == NUL then None else if c == 'P' then Some(COPY) else Some(CONNECT)
  {
  }

  lemma NextMkcol(c: char)
    ensures Guess(MKCOL, 1, c) == if c == NUL then None else if c == 'O' then Some(MOVE)
      else if c == 'E' then Some(MERGE) else if c == '-' then Some(MSEARCH) else Some(MKCOL)
    ensures Guess(MKCOL, 2, c) == if c == NUL then None else if c == 'A' then Some(MKACTIVITY) else Some(MKCOL)
  {
  }

  lemma NextPost(c: char)
    ensures Guess(POST, 1, c) == if c == 'O' then Some(POST) else if c == 'R' then Some(PROPFIND)
      else if c == 'U' then Some(PUT) else None
    ensures Guess(PROPFIND, 2, c) == if c == 'O' then Some(PROPFIND) else None
    ensures Guess(PROPFIND, 3, c) == if c == 'P' then Some(PROPFIND) else None
    ensures Guess(PROPFIND, 4, c) == if c == 'F' then Some(PROPFIND) else if c == 'P' then Some(PROPPATCH) else None
  {
  }

  lemma NextUnlock(c: char)
    ensures Guess(UNLOCK, 1, c) == if c == 'N' then Some(UNLOCK) else None
    ensures Guess(UNLOCK, 2, c) == if c == 'L' then Some(UNLOCK) else if c == 'S' then Some(UNSUBSCRIBE) else None
  {
  }

  lemma Tails()
    ensures MethodString(CHECKOUT)[2..] == "ECKOUT" && MethodString(COPY)[3..] == "Y" && |MethodString(CONNECT)| == 7
    ensures MethodString(MOVE)[2..] == "VE" && MethodString(MERGE)[2..] == "RGE"
    ensures MethodString(MSEARCH)[2..] == "SEARCH"
    ensures MethodString(MKACTIVITY)[3..] == "CTIVITY" && |MethodString(MKCOL)| == 5
    ensures MethodString(POST)[2..] == "ST" && MethodString(PUT)[2..] == "T" && MethodString(PROPFIND)[5..] == "IND"
    ensures MethodString(PROPPATCH)[5..] == "ATCH" && MethodString(UNLOCK)[3..] == "OCK"
    ensures MethodString(UNSUBSCRIBE)[3..] == "UBSCRIBE"
  {
  }

  lemma Enough(m: Method)
    ensures |MethodString(m)| >= 3 && (m == COPY || m == MKACTIVITY || m == CHECKOUT ==> |MethodString(m)| >= 4)
    ensures m == PROPPATCH || m == PROPFIND || m == UNSUBSCRIBE ==> |MethodString(m)| >= 8
    ensures m == UNLOCK ==> |MethodString(m)| == 6
  {
  }

  /** One letter of RestFor. */
  lemma OneLetter(g: Method, i: nat, t: string, m: Method)
    requires i <= |MethodString(g)| && !Rigid(g, i) && !(i >= 3 && (g == CONNECT || g == MKCOL))
    ensures RestFor(g, i, t, m) <==>
      t != "" && var h := Guess(g, i, t[0]);
      h.Some? && i + 1 <= |MethodString(h.value)| && RestFor(h.value, i + 1, t[1..], m)
  {
    hide MethodString, Guess;
  }

  lemma AllRigid(g: Method, i: nat, t: string, m: Method)
    requires i <= |MethodString(g)| && Rigid(g, i)
    ensures RestFor(g, i, t, m) <==> m == g && t == MethodString(g)[i..]
  {
    hide MethodString, Guess;
  }

  lemma AllLenient(g: Method, i: nat, t: string, m: Method)
    requires i <= |MethodString(g)| && i >= 3 && (g == CONNECT || g == MKCOL)
    ensures RestFor(g, i, t, m) <==> m == g && |t| == |MethodString(g)| - i && NoNul(t)
  {
    hide MethodString, Guess;
  }

  lemma SecondConnect(v: string, m: Method)
    requires 2 <= |MethodString(CONNECT)|
    ensures RestFor(CONNECT, 2, v, m) <==>
      || (m == COPY && v == "PY")
      || (m == CONNECT && |v| == 5 && NoNul(v) && v[0] != 'P')
  {
    Tails();
    Enough(COPY);
    hide MethodString, Guess, RestFor;
    OneLetter(CONNECT, 2, v, m);
    if v != "" {
      NextConnect(v[0]);
      NoNulCons(v);
      AllRigid(COPY, 3, v[1..], m);
      AllLenient(CONNECT, 3, v[1..], m);
      assert v == [v[0]] + v[1..] && "PY" == ['P'] + "Y";
    }
  }

  lemma StartConnect(u: string, m: Method)
    requires 1 <= |MethodString(CONNECT)|
    ensures RestFor(CONNECT, 1, u, m) <==>
      || (m == CHECKOUT && u == "HECKOUT")
      || (m == COPY && |u| == 3 && u[0] !in {'H', NUL} && u[1..] == "PY")
      || (m == CONNECT && |u| == 6 && NoNul(u) && u[0] != 'H' && u[1] != 'P')
  {
    Tails();
    Enough(CHECKOUT);
    hide MethodString, Guess, RestFor;
    OneLetter(CONNECT, 1, u, m);
    if u != "" {
      NextConnect(u[0]);
      NoNulCons(u);
      AllRigid(CHECKOUT, 2, u[1..], m);
      SecondConnect(u[1..], m);
      assert u == [u[0]] + u[1..] && "HECKOUT" == ['H'] + "ECKOUT";
    }
  }

  lemma SecondMkcol(v: string, m: Method)
    requires 2 <= |MethodString(MKCOL)|
    ensures RestFor(MKCOL, 2, v, m) <==>
      || (m == MKACTIVITY && v == "ACTIVITY")
      || (m == MKCOL && |v| == 3 && NoNul(v) && v[0] != 'A')
  {
    Tails();
    Enough(MKACTIVITY);
    hide MethodString, Guess, RestFor;
    OneLetter(MKCOL, 2, v, m);
    if v != "" {
      NextMkcol(v[0]);
      NoNulCons(v);
      AllRigid(MKACTIVITY, 3, v[1..], m);
      AllLenient(MKCOL, 3, v[1..], m);
      assert v == [v[0]] + v[1..] && "ACTIVITY" == ['A'] + "CTIVITY";
    }
  }

  lemma StartMkcol(u: string, m: Method)
    requires 1 <= |MethodString(MKCOL)|
    ensures RestFor(MKCOL, 1, u, m) <==>
      || (m == MOVE && u == "OVE") || (m == MERGE && u == "ERGE") || (m == MSEARCH && u == "-SEARCH")
      || (m == MKACTIVITY && |u| == 9 && u[0] !in {'O', 'E', '-', NUL} && u[1..] == "ACTIVITY")
      || (m == MKCOL && |u| == 4 && NoNul(u) && u[0] !in {'O', 'E', '-'} && u[1] != 'A')
  {
    Tails();
    Enough(MOVE);
    Enough(MERGE);
    Enough(MSEARCH);
    hide MethodString, Guess, RestFor;
    OneLetter(MKCOL, 1, u, m);
    if u != "" {
      NextMkcol(u[0]);
      NoNulCons(u);
      AllRigid(MOVE, 2, u[1..], m);
      AllRigid(MERGE, 2, u[1..], m);
      AllRigid(MSEARCH, 2, u[1..], m);
      SecondMkcol(u[1..], m);
      assert u == [u[0]] + u[1..] && "OVE" == ['O'] + "VE" && "ERGE" == ['E'] + "RGE" && "-SEARCH" == ['-'] + "SEARCH";
    }
  }

  lemma FourthPost(v: string, m: Method)
    requires 4 <= |MethodString(PROPFIND)|
    ensures RestFor(PROPFIND, 4, v, m) <==> (m == PROPFIND && v == "FIND") || (m == PROPPATCH && v == "PATCH")
  {
    Tails();
    Enough(PROPFIND);
    Enough(PROPPATCH);
    hide MethodString, Guess, RestFor;
    OneLetter(PROPFIND, 4, v, m);
    if v != "" {
      NextPost(v[0]);
      AllRigid(PROPFIND, 5, v[1..], m);
      AllRigid(PROPPATCH, 5, v[1..], m);
      assert v == [v[0]] + v[1..] && "FIND" == ['F'] + "IND" && "PATCH" == ['P'] + "ATCH";
    }
  }

  lemma SecondPost(v: string, m: Method)
    requires 2 <= |MethodString(PROPFIND)|
    ensures RestFor(PROPFIND, 2, v, m) <==> (m == PROPFIND && v == "OPFIND") || (m == PROPPATCH && v == "OPPATCH")
  {
    Enough(PROPFIND);
    hide MethodString, Guess, RestFor;
    OneLetter(PROPFIND, 2, v, m);
    if v != "" {
      var w := v[1..];
      NextPost(v[0]);
      OneLetter(PROPFIND, 3, w, m);
      assert v == [v[0]] + w && "OPFIND" == ['O'] + "PFIND" && "OPPATCH" == ['O'] + "PPATCH";
      if w != "" {
        NextPost(w[0]);
        FourthPost(w[1..], m);
        assert w == [w[0]] + w[1..] && "PFIND" == ['P'] + "FIND" && "PPATCH" == ['P'] + "PATCH";
      }
    }
  }

  lemma StartPost(u: string, m: Method)
    requires 1 <= |MethodString(POST)|
    ensures RestFor(POST, 1, u, m) <==>
      || (m == POST && u == "OST") || (m == PUT && u == "UT")
      || (m == PROPFIND && u == "ROPFIND") || (m == PROPPATCH && u == "ROPPATCH")
  {
    Tails();
    Enough(POST);
    Enough(PUT);
    Enough(PROPFIND);
    hide MethodString, Guess, RestFor;
    OneLetter(POST, 1, u, m);
    if u != "" {
      NextPost(u[0]);
      AllRigid(POST, 2, u[1..], m);
      AllRigid(PUT, 2, u[1..], m);
      SecondPost(u[1..], m);
      assert u == [u[0]] + u[1..] && "OST" == ['O'] + "ST" && "UT" == ['U'] + "T";
      assert "ROPFIND" == ['R'] + "OPFIND" && "ROPPATCH" == ['R'] + "OPPATCH";
    }
  }

  lemma StartUnlock(u: string, m: Method)
    requires 1 <= |MethodString(UNLOCK)|
    ensures RestFor(UNLOCK, 1, u, m) <==> (m == UNLOCK && u == "NLOCK") || (m == UNSUBSCRIBE && u == "NSUBSCRIBE")
  {
    Tails();
    Enough(UNLOCK);
    Enough(UNSUBSCRIBE);
    hide MethodString, Guess, RestFor;
    OneLetter(UNLOCK, 1, u, m);
    if u != "" {
      var v := u[1..];
      NextUnlock(u[0]);
      OneLetter(UNLOCK, 2, v, m);
      assert u == [u[0]] + v && "NLOCK" == ['N'] + "LOCK" && "NSUBSCRIBE" == ['N'] + "SUBSCRIBE";
      if v != "" {
        NextUnlock(v[0]);
        AllRigid(UNLOCK, 3, v[1..], m);
        AllRigid(UNSUBSCRIBE, 3, v[1..], m);
        assert v == [v[0]] + v[1..] && "LOCK" == ['L'] + "OCK" && "SUBSCRIBE" == ['S'] + "UBSCRIBE";
      }
    }
  }

  // ----- the first letter

  /** The guess after the first letter. */
  function First(c: char): Option<Method>
  {
    match c
    case 'C' => Some(CONNECT) case 'D' => Some(DELETE) case 'G' => Some(GET) case 'H' => Some(HEAD)
    case 'L' => Some(LOCK) case 'M' => Some(MKCOL) case 'N' => Some(NOTIFY) case 'O' => Some(OPTIONS)
    case 'P' => Some(POST) case 'R' => Some(REPORT) case 'S' => Some(SUBSCRIBE) case 'T' => Some(TRACE)
    case 'U' => Some(UNLOCK) case _ => None
  }

  lemma FirstStep(skip: bool, p: P, c: char)
    requires AtRequest(p) && c != CR && c != LF && p.nread < MAX_HEADER_SIZE
    ensures var o := Step(skip, p, c);
      && (o.v.Go? <==> First(c).Some?)
      && (o.v.Go? ==> o.p == Fresh(p).(state := ReqMethod, meth := First(c).value, index := 1, nread := p.nread + 1))
  {
  }

  lemma NameParts(m: Method, c: char, u: string)
    requires 1 <= |MethodString(m)|
    ensures [c] + u == MethodString(m) <==> c == MethodString(m)[0] && u == MethodString(m)[1..]
  {
    var s := MethodString(m);
    hide MethodString;
    assert s == [s[0]] + s[1..];
    if [c] + u == s { assert u == ([c] + u)[1..]; }
  }

  /** The names by their first letters. */
  lemma Initials(m: Method)
    ensures var c := MethodString(m)[0];
      m in (match c
        case 'C' => {CONNECT, COPY, CHECKOUT} case 'D' => {DELETE} case 'G' => {GET} case 'H' => {HEAD}
        case 'L' => {LOCK} case 'M' => {MKCOL, MOVE, MERGE, MSEARCH, MKACTIVITY} case 'N' => {NOTIFY}
        case 'O' => {OPTIONS} case 'P' => {POST, PUT, PROPFIND, PROPPATCH} case 'R' => {REPORT}
        case 'S' => {SUBSCRIBE} case 'T' => {TRACE} case 'U' => {UNLOCK, UNSUBSCRIBE} case _ => {})
  {
  }

  lemma Cleans()
    ensures NoNul("ONNECT") && NoNul("KCOL")
  {
  }

  lemma Whole(t: string, m: Method)
    requires t == MethodString(m)
    ensures t != "" && m in (match t[0]
      case 'C' => {CONNECT, COPY, CHECKOUT} case 'D' => {DELETE} case 'G' => {GET} case 'H' => {HEAD}
      case 'L' => {LOCK} case 'M' => {MKCOL, MOVE, MERGE, MSEARCH, MKACTIVITY} case 'N' => {NOTIFY}
      case 'O' => {OPTIONS} case 'P' => {POST, PUT, PROPFIND, PROPPATCH} case 'R' => {REPORT}
      case 'S' => {SUBSCRIBE} case 'T' => {TRACE} case 'U' => {UNLOCK, UNSUBSCRIBE} case _ => {})
  {
    Initials(m);
  }

  /** The rest after each first letter makes the text one that is taken for the method. */
  lemma ConnectTaken(u: string, m: Method)
    requires 1 <= |MethodString(CONNECT)|
    ensures RestFor(CONNECT, 1, u, m) <==> TakenFor("C" + u, m)
  {
    var t := "C" + u;
    MethodNames();
    Cleans();
    hide MethodString, RestFor, NoNul;
    if t == MethodString(m) { Whole(t, m); }
    StartConnect(u, m);
    NoNulCons(t);
    assert t[1..] == u && (|u| > 0 ==> t[2..] == u[1..]);
    assert "COPY" == "C" + "OPY" && "CHECKOUT" == "C" + "HECKOUT" && "CONNECT" == "C" + "ONNECT";
    assert |u| == 3 && u[0] == 'O' && u[1..] == "PY" ==> u == "OPY";
  }

  lemma MkcolTaken(u: string, m: Method)
    requires 1 <= |MethodString(MKCOL)|
    ensures RestFor(MKCOL, 1, u, m) <==> TakenFor("M" + u, m)
  {
    var t := "M" + u;
    MethodNames();
    Cleans();
    hide MethodString, RestFor, NoNul;
    if t == MethodString(m) { Whole(t, m); }
    StartMkcol(u, m);
    NoNulCons(t);
    assert t[1..] == u && (|u| > 0 ==> t[2..] == u[1..]);
    assert "MKCOL" == "M" + "KCOL" && "MOVE" == "M" + "OVE" && "MERGE" == "M" + "ERGE";
    assert "M-SEARCH" == "M" + "-SEARCH" && "MKACTIVITY" == "M" + "KACTIVITY";
  }

  lemma PostTaken(u: string, m: Method)
    requires 1 <= |MethodString(POST)|
    ensures RestFor(POST, 1, u, m) <==> TakenFor("P" + u, m)
  {
    var t := "P" + u;
    MethodNames();
    hide MethodString, RestFor, NoNul;
    if t == MethodString(m) { Whole(t, m); }
    StartPost(u, m);
    assert t[1..] == u;
    assert "POST" == "P" + "OST" && "PUT" == "P" + "UT";
    assert "PROPFIND" == "P" + "ROPFIND" && "PROPPATCH" == "P" + "ROPPATCH";
  }

  lemma UnlockTaken(u: string, m: Method)
    requires 1 <= |MethodString(UNLOCK)|
    ensures RestFor(UNLOCK, 1, u, m) <==> TakenFor("U" + u, m)
  {
    var t := "U" + u;
    MethodNames();
    hide MethodString, RestFor, NoNul;
    if t == MethodString(m) { Whole(t, m); }
    StartUnlock(u, m);
    assert t[1..] == u;
    assert "UNLOCK" == "U" + "NLOCK" && "UNSUBSCRIBE" == "U" + "NSUBSCRIBE";
  }

  lemma FirstIs(c: char)
    requires First(c).Some? && Rigid(First(c).value, 1)
    ensures |MethodString(First(c).value)| >= 1 && MethodString(First(c).value)[0] == c
  {
  }

  lemma PlainTaken(t: string, m: Method)
    requires t != "" && t[0] != 'C' && t[0] != 'M'
    ensures TakenFor(t, m) <==> t == MethodString(m)
  {
    hide MethodString, NoNul;
  }

  /** A first letter that only one method has. */
  lemma OnlyTaken(c: char, u: string, m: Method)
    requires First(c).Some? && Rigid(First(c).value, 1) && 1 <= |MethodString(First(c).value)|
    ensures RestFor(First(c).value, 1, u, m) <==> TakenFor([c] + u, m)
  {
    var t, g := [c] + u, First(c).value;
    FirstIs(c);
    assert c !in {'C', 'M', 'P', 'U'};
    hide MethodString, RestFor, TakenFor;
    PlainTaken(t, m);
    AllRigid(g, 1, u, m);
    NameParts(g, c, u);
    if t == MethodString(m) { Whole(t, m); }
  }

  /** From the start of a request: a text is read as the method m, up to the space after it, exactly if it is taken
      for m. */
  lemma MethodExact(skip: bool, p: P, t: string, m: Method)
    requires AtRequest(p) && t != "" && t[0] != CR && t[0] != LF && p.nread + |t| < MAX_HEADER_SIZE
    ensures var o := Step(skip, p, t[0]); o.v.Go? && EndsAt(skip, o.p, t[1..], m) <==> TakenFor(t, m)
    ensures TakenFor(t, m) ==>
      var r := Feed(skip, p, t + " "); r.v.Go? && r.p.state.ReqSpacesBeforeUrl? && r.p.meth == m
  {
    var c, u, o := t[0], t[1..], Step(skip, p, t[0]);
    hide Step, Feed, EndsAt, RestFor, TakenFor, Fresh;
    assert t == [c] + u && t + " " == [c] + (u + " ");
    FirstStep(skip, p, c);
    if o.v.Go? {
      var g := First(c).value;
      Enough(g);
      RestExact(skip, o.p, g, 1, u, m);
      GuessTaken(c, u, m);
      if EndsAt(skip, o.p, u, m) {
        EndsFeed(skip, o.p, u, m);
        FirstByte(skip, p, c, u + " ");
      }
    } else {
      NothingTaken(t, m);
    }
  }

  lemma GuessTaken(c: char, u: string, m: Method)
    requires First(c).Some? && 1 <= |MethodString(First(c).value)|
    ensures RestFor(First(c).value, 1, u, m) <==> TakenFor([c] + u, m)
  {
    hide RestFor, TakenFor, MethodString;
    if c == 'C' {
      ConnectTaken(u, m);
    } else if c == 'M' {
      MkcolTaken(u, m);
    } else if c == 'P' {
      PostTaken(u, m);
    } else if c == 'U' {
      UnlockTaken(u, m);
    } else {
      OnlyTaken(c, u, m);
    }
  }

  lemma NothingTaken(t: string, m: Method)
    requires t != "" && First(t[0]).None?
    ensures !TakenFor(t, m)
  {
    hide MethodString;
    if t == MethodString(m) { Whole(t, m); }
  }
}
