/** Consecutive calls of a caller that goes on after errors and after upgrades: exactly which of them make
    an internal assertion of the parser fail. */
module HttpCalls {
  import opened HttpTypes
  import opened HttpArms
  import opened HttpMachine
  import opened HttpSplit

  /** The states whose arms assert that the message is chunked. */
  predicate InChunks(st: State) { ChunkState(st) || st.ChunkData? }

  /** A record whose next byte makes that assertion fail. */
  predicate Trapped(p: P) { InChunks(p.state) && !p.flags.chunked }

  /** What the assertions of the arms rely on. */
  predicate Sure(p: P)
  {
    && !Trapped(p)
    && (p.state.HeaderField? || p.state.HeaderValueStart? ==> FieldHState(p.hs))
    && (p.state.HeaderValue? ==> ValueHState(p.hs))
    && (!ParsingHeader(p.state) || p.state.ChunkSizeStart? ==> p.nread == 0)
  }

  // ----- one byte

  lemma SureStart(p: P, ch: char)
    requires p.state in {StartReqOrRes, ResOrRespH, StartRes, StartReq}
    ensures var o := ArmStart(p, ch); !o.v.AssertFails? && (o.v.Go? ==> Sure(o.p))
  {
  }

  lemma SureMethod(p: P, ch: char)
    requires p.state.ReqMethod?
    ensures var o := ArmMethod(p, ch); !o.v.AssertFails? && (o.v.Go? ==> Sure(o.p))
  {
    hide MethodString, Redirect;
  }

  lemma SureUrl(p: P, ch: char)
    requires UrlState(p.state)
    ensures var o := ArmUrl(p, ch); !o.v.AssertFails? && (o.v.Go? ==> Sure(o.p))
  {
    hide IsAlpha, NormalUrlChar, IsDigit;
  }

  lemma SureVersion(p: P, ch: char)
    requires ReqVersionState(p.state)
    ensures var o := ArmReqVersion(p, ch); !o.v.AssertFails? && (o.v.Go? ==> Sure(o.p))
  {
    hide IsDigit, Digit;
  }

  lemma SureRes(p: P, ch: char)
    requires ResState(p.state)
    ensures var o := ArmRes(p, ch); !o.v.AssertFails? && (o.v.Go? ==> Sure(o.p))
  {
    hide IsDigit, Digit;
  }

  lemma SureFieldNext(p: P, ch: char, c: char)
    requires Sure(p) && p.state.HeaderField?
    ensures var (h, i) := FieldNext(p.hs, p.index, ch, c); Sure(p.(hs := h, index := i))
  {
  }

  lemma SureValueFirst(p: P, ch: char)
    requires p.state.HeaderValue? && FieldHState(p.hs)
    ensures var o := ValueFirst(p, ch); !o.v.AssertFails? && (o.v.Go? ==> Sure(o.p))
  {
    hide IsDigit, Lower;
  }

  lemma SureValueNext(p: P, ch: char)
    requires Sure(p) && p.state.HeaderValue?
    ensures var o := ValueNext(p, ch); !o.v.AssertFails? && (o.v.Go? ==> Sure(o.p))
  {
    hide IsDigit, Lower;
  }

  lemma SureEndOfHeaders(skip: bool, p: P)
    ensures var o := EndOfHeaders(skip, p); !o.v.AssertFails? && (o.v.Go? ==> Sure(o.p))
  {
  }

  lemma SureHeader(skip: bool, p: P, ch: char)
    requires Sure(p) && HeaderState(p.state)
    ensures var o := ArmHeader(skip, p, ch); !o.v.AssertFails? && (o.v.Go? ==> Sure(o.p))
  {
    hide Token, FieldNext, ValueFirst, ValueNext, EndOfHeaders;
    match p.state {
      case HeaderFieldStart => SureEndOfHeaders(skip, p.(state := HeadersAlmostDone));
      case HeaderField => SureFieldNext(p, ch, Token(ch));
      case HeaderValueStart => SureValueFirst(p.(state := HeaderValue, index := 0), ch);
      case HeaderValue => SureValueNext(p, ch);
      case HeaderAlmostDone =>
      case HeadersAlmostDone => SureEndOfHeaders(skip, p);
    }
  }

  lemma SureChunk(p: P, ch: char)
    requires Sure(p) && ChunkState(p.state)
    ensures var o := ArmChunk(Counted(p), ch); !o.v.AssertFails? && (o.v.Go? ==> Sure(o.p))
  {
    hide Unhex;
  }

  lemma SureArm(skip: bool, p: P, ch: char)
    requires Sure(p) && !Bulk(p.state)
    ensures var o := Arm(skip, Counted(p), ch); !o.v.AssertFails? && (o.v.Go? ==> Sure(o.p))
  {
    hide ArmStart, ArmMethod, ArmUrl, ArmReqVersion, ArmRes, ArmHeader, ArmChunk, Sure;
    var q := Counted(p);
    if p.state.Dead? {
    } else if ChunkState(p.state) { SureChunk(p, ch);
    } else if p.state in {StartReqOrRes, ResOrRespH, StartRes, StartReq} { SureStart(q, ch);
    } else if p.state.ReqMethod? { SureMethod(q, ch);
    } else if UrlState(p.state) { SureUrl(q, ch);
    } else if ReqVersionState(p.state) { SureVersion(q, ch);
    } else if ResState(p.state) { SureRes(q, ch);
    } else { SureCounted(p); SureHeader(skip, q, ch); }
  }

  lemma SureCounted(p: P)
    requires Sure(p) && HeaderState(p.state)
    ensures Sure(Counted(p))
  {
  }

  lemma SureBulk(skip: bool, p: P, ch: char)
    requires Sure(p) && Bulk(p.state)
    ensures var o := Step(skip, p, ch); !o.v.AssertFails? && (o.v.Go? ==> Sure(o.p))
  {
    hide Arm, Notes;
  }

  lemma SureStep(skip: bool, p: P, ch: char)
    requires Sure(p)
    ensures var o := Step(skip, p, ch); !o.v.AssertFails? && (o.v.Go? ==> Sure(o.p))
  {
    hide Arm, Notes, Sure;
    if Bulk(p.state) { SureBulk(skip, p, ch); } else { SureArm(skip, p, ch); }
  }

  // ----- one call

  lemma {:induction false} SureFeed(skip: bool, p: P, data: string)
    requires Sure(p)
    ensures var r := Feed(skip, p, data); !r.v.AssertFails? && (r.v.Go? ==> Sure(r.p))
    decreases |data|
  {
    hide Step, Sure;
    if data != [] {
      var n := |data| - 1;
      SureFeed(skip, p, data[..n]);
      var r := Feed(skip, p, data[..n]);
      if r.v.Go? { SureStep(skip, r.p, data[n]); }
    }
  }

  lemma TrappedStep(skip: bool, p: P, ch: char)
    requires Trapped(p) && p.nread < MAX_HEADER_SIZE
    ensures Step(skip, p, ch).v.AssertFails?
  {
    hide ArmStart, ArmMethod, ArmUrl, ArmReqVersion, ArmRes, ArmHeader, Unhex, Notes, SpansOf;
  }

  lemma {:induction false} TrappedFeed(skip: bool, p: P, data: string)
    requires Trapped(p) && p.nread < MAX_HEADER_SIZE && data != []
    ensures Feed(skip, p, data).v.AssertFails?
    decreases |data|
  {
    hide Step, Trapped;
    if |data| > 1 {
      TrappedFeed(skip, p, data[..|data| - 1]);
    } else {
      assert data[..0] == [];
      TrappedStep(skip, p, data[0]);
    }
  }

  /** The records between calls. */
  predicate AtCall(p: P) { p.nread < 256 && (Sure(p) || Trapped(p)) }

  lemma EntrySure(q: P, p: P)
    requires AtCall(p) && q.state == p.state && q.hs == p.hs && q.nread == p.nread && (Sure(p) || Trapped(q))
    ensures AtCall(q)
  {
  }

  lemma StoredSure(p: P)
    requires Sure(p)
    ensures Sure(p.(index := p.index % 256, nread := p.nread % 256))
  {
  }

  lemma DeadSure(p: P)
    requires p.state.Dead?
    ensures Sure(p)
  {
  }

  lemma ExitSure(p: P, q: P)
    requires Sure(p) && q.state == p.state && q.hs == p.hs && q.nread == p.nread
    ensures Sure(q) || Trapped(q)
  {
  }

  lemma NotBoth(p: P)
    ensures !(Sure(p) && Trapped(p))
  {
  }

  /** A call fails an assertion exactly if it starts from a trapped record, and only an upgrade leads to one. */
  lemma OneCall(skip: bool, p: P, data: string)
    requires AtCall(p)
    ensures var r := Exec(skip, p, data);
      && (r.v.AssertFails? <==> Trapped(p) && data != [])
      && (r.v.Go? || r.v.Fail? || r.v.Exit? ==> AtCall(r.p))
      && (r.v.Go? || r.v.Fail? || r.v.Exit? ==> Trapped(r.p) ==> r.v.Exit? || (Trapped(p) && data == []))
  {
    hide Feed, Sure, Trapped;
    NotBoth(p);
    NotBoth(Exec(skip, p, data).p);
    if data == [] {
    } else if Trapped(p) {
      TrappedFeed(skip, p, data);
    } else {
      SureFeed(skip, p, data);
      var r := Feed(skip, p, data);
      if r.v.Go? { StoredSure(r.p); }
      if r.v.Fail? { DeadSure(Stored(p, r)); }
      if r.v.Exit? { ExitSure(p, Stored(p, r)); }
    }
  }

  /** After an upgrade the state is still the one that the call started in, while the flags are those of the
      new message: the next call fails an assertion exactly if that state is in chunks and the new message
      is not chunked. */
  lemma AfterUpgrade(skip: bool, p: P, a: string, skip': bool, b: string)
    requires Sure(p) && p.nread < 256 && Exec(skip, p, a).v.Exit? && b != []
    ensures var q := Exec(skip, p, a).p;
      q.state == p.state && (Exec(skip', q, b).v.AssertFails? <==> InChunks(p.state) && !q.flags.chunked)
  {
    hide Feed, Sure;
    OneCall(skip, p, a);
    OneCall(skip', Exec(skip, p, a).p, b);
  }

  // ----- sequences of calls

  /** Consecutive calls of a caller that goes on as long as the parser returns. */
  function Calls(skip: bool, p: P, pieces: seq<string>): (cs: seq<Trace>)
    ensures |cs| <= |pieces|
    decreases |pieces|
  {
    if pieces == [] then []
    else
      var r := Exec(skip, p, pieces[0]);
      [r] + if r.v.Go? || r.v.Fail? || r.v.Exit? then Calls(skip, r.p, pieces[1..]) else []
  }

  /** The record before a call. */
  function Before(p: P, cs: seq<Trace>, i: nat): P
    requires i <= |cs|
  {
    if i == 0 then p else cs[i - 1].p
  }

  /** A call fails an assertion exactly if it has input and the record before it is trapped. Only an upgrade
      leaves a trapped record, or a call without input that finds one. */
  predicate FailsOnlyTrapped(p: P, piece: string, r: Trace)
  {
    && (r.v.AssertFails? <==> piece != [] && Trapped(p))
    && ((r.v.Go? || r.v.Fail? || r.v.Exit?) && Trapped(r.p) ==> r.v.Exit? || (piece == [] && Trapped(p)))
  }

  lemma {:induction false} CallsHold(skip: bool, p: P, pieces: seq<string>)
    requires AtCall(p)
    ensures var cs := Calls(skip, p, pieces);
      forall i :: 0 <= i < |cs| ==> FailsOnlyTrapped(Before(p, cs, i), pieces[i], cs[i])
    decreases |pieces|
  {
    if pieces != [] {
      var r, rest := Exec(skip, p, pieces[0]), pieces[1..];
      OneCall(skip, p, pieces[0]);
      assert FailsOnlyTrapped(p, pieces[0], r);
      hide Exec, AtCall, Trapped, FailsOnlyTrapped;
      var cs := Calls(skip, p, pieces);
      if r.v.Go? || r.v.Fail? || r.v.Exit? {
        CallsHold(skip, r.p, rest);
        var ds := Calls(skip, r.p, rest);
        assert cs == [r] + ds;
        forall i | 0 <= i < |cs| ensures FailsOnlyTrapped(Before(p, cs, i), pieces[i], cs[i]) {
          if i > 0 {
            assert cs[i] == ds[i - 1] && pieces[i] == rest[i - 1] && Before(p, cs, i) == Before(r.p, ds, i - 1);
          }
        }
      } else {
        assert cs == [r];
      }
    }
  }

  /** Any sequence of buffers, empty ones included, for a fresh parser and a caller that goes on after errors
      and upgrades: the calls that fail an assertion are exactly those from a trapped record, which only
      upgrades leave. */
  lemma AssertionsHold(skip: bool, t: Type, pieces: seq<string>)
    ensures var cs := Calls(skip, Init(t), pieces);
      !Trapped(Init(t)) && forall i :: 0 <= i < |cs| ==> FailsOnlyTrapped(Before(Init(t), cs, i), pieces[i], cs[i])
  {
    assert AtCall(Init(t)) && !Trapped(Init(t));
    hide Trapped, AtCall, FailsOnlyTrapped, Calls;
    CallsHold(skip, Init(t), pieces);
  }
}
