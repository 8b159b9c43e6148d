/** The header automaton reads a name and a value one character at a time. Here it is compared
    with looking at the whole strings. */
module HttpHeaders {
  import opened HttpTypes
  import opened HttpArms
  import opened HttpMachine
  import opened HttpSplit
  import opened HttpExecute

  /** A token character of RFC 2616, section 2.2: no control character and no separator. */
  predicate Rfc2616(ch: char)
  {
    ' ' < ch < 127 as char
    && ch !in {'(', ')', '<', '>', '@', ',', ';', ':', '\\', '"', '/', '[', ']', '?', '=', '{', '}'}
  }

  /** What a name may hold: the parser's table has four more characters than the standard. */
  predicate NameChar(ch: char) { Rfc2616(ch) || ch in {' ', '"', '/', '}'} }

  ghost predicate NameText(s: string) { forall i :: 0 <= i < |s| ==> NameChar(s[i]) }

  ghost predicate TokenString(s: string) { forall i :: 0 <= i < |s| ==> Token(s[i]) != NUL }

  /** The name as the parser compares it. */
  function LowerName(s: string): (r: string)
    ensures |r| == |s|
  {
    seq(|s|, i requires 0 <= i < |s| => Token(s[i]))
  }

  /** ASCII case folding. */
  function Fold(ch: char): char { if 'A' <= ch <= 'Z' then (ch as int + 32) as char else ch }

  function FoldAll(s: string): (r: string)
    ensures |r| == |s|
  {
    seq(|s|, i requires 0 <= i < |s| => Fold(s[i]))
  }

  /** The table of token characters: which ones they are, and that it folds their case. */
  lemma TokenIs(ch: char)
    ensures Token(ch) != NUL <==> NameChar(ch)
    ensures NameChar(ch) ==> Token(ch) == Fold(ch)
  {
  }

  lemma NameTextIs(s: string)
    ensures NameText(s) <==> TokenString(s)
    ensures NameText(s) ==> LowerName(s) == FoldAll(s)
  {
    hide Token, NameChar, Fold;
    forall i | 0 <= i < |s| ensures Token(s[i]) != NUL <==> NameChar(s[i]) { TokenIs(s[i]); }
    if NameText(s) {
      forall i | 0 <= i < |s| ensures LowerName(s)[i] == FoldAll(s)[i] {
        TokenIs(s[i]);
        assert NameChar(s[i]);
      }
    }
  }

  /** The string is the word, followed by nothing but spaces. */
  predicate Is(word: string, s: string)
  {
    word <= s && forall i :: |word| <= i < |s| ==> s[i] == ' '
  }

  /** A string that has run past the word, or differs from it, can no longer become it. */
  predicate Excludes(word: string, s: string) { !(s <= word) && !Is(word, s) }

  lemma Longer(word: string, s: string, c: char)
    ensures Excludes(word, s) ==> Excludes(word, s + [c])
    ensures s <= word && |s| < |word| && c == word[|s|] ==> s + [c] <= word
    ensures s <= word && |s| < |word| && c != word[|s|] ==> Excludes(word, s + [c])
    ensures Is(word, s) && c == ' ' ==> Is(word, s + [c])
    ensures Is(word, s) && c != ' ' ==> Excludes(word, s + [c])
    ensures s <= word && |s| + 1 == |word| && c == word[|s|] ==> Is(word, s + [c])
  {
    var t := s + [c];
    assert t[|s|] == c;
    if t <= word {
      assert s == t[..|s|] == word[..|s|];
      assert word[|s|] == c;
    }
    if Is(word, t) {
      if |word| <= |s| {
        assert word == t[..|word|] == s[..|word|];
        forall i | |word| <= i < |s| ensures s[i] == ' ' { assert t[i] == ' '; }
      } else {
        assert word == t;
      }
    }
  }

  /** A string that has started like one word cannot be another one. */
  lemma Differs(word: string, other: string, s: string, k: nat)
    requires k < |word| && k < |other| && word[k] != other[k] && k < |s|
    requires s <= word || word <= s
    ensures Excludes(other, s)
  {
    assert s[k] == word[k];
  }

  // ----- names

  /** The state of the automaton and its index after a name. */
  function NameRun(name: string): (r: (HState, nat))
    requires name != ""
    ensures FieldHState(r.0)
  {
    var n := |name| - 1;
    if n == 0 then (FieldFirst(Token(name[0])), 0)
    else
      var (h, i) := NameRun(name[..n]);
      FieldNext(h, i, name[n], Token(name[n]))
  }

  /** What each state says about the lower-cased name read so far. */
  ghost predicate NameMeans(s: string, h: HState, i: nat)
  {
    match h
    case C => s == "c" && i == 0
    case CO => s == "co" && i == 1
    case CON => s == "con" && i == 2
    case MatchConnection => s <= CONNECTION && 4 <= |s| == i + 1 < |CONNECTION|
    case MatchProxyConnection => s <= PROXY_CONNECTION && 1 <= |s| == i + 1 < |PROXY_CONNECTION|
    case MatchContentLength => s <= CONTENT_LENGTH && 4 <= |s| == i + 1 < |CONTENT_LENGTH|
    case MatchTransferEncoding => s <= TRANSFER_ENCODING && 1 <= |s| == i + 1 < |TRANSFER_ENCODING|
    case MatchUpgrade => s <= UPGRADE && 1 <= |s| == i + 1 < |UPGRADE|
    case Connection => Is(CONNECTION, s) || Is(PROXY_CONNECTION, s)
    case ContentLength => Is(CONTENT_LENGTH, s)
    case TransferEncoding => Is(TRANSFER_ENCODING, s)
    case Upgrade => Is(UPGRADE, s)
    case General =>
      && Excludes(CONNECTION, s) && Excludes(PROXY_CONNECTION, s) && Excludes(CONTENT_LENGTH, s)
      && Excludes(TRANSFER_ENCODING, s) && Excludes(UPGRADE, s)
    case _ => false
  }

  lemma {:induction false} NameAutomaton(name: string)
    requires name != "" && TokenString(name)
    ensures var (h, i) := NameRun(name); NameMeans(LowerName(name), h, i)
  {
    var n := |name| - 1;
    var s := LowerName(name);
    hide NameMeans, FieldNext, Token;
    if n == 0 {
      assert s == [Token(name[0])];
      NameFirst(Token(name[0]));
    } else {
      NameAutomaton(name[..n]);
      assert s == LowerName(name[..n]) + [Token(name[n])];
      var (h, i) := NameRun(name[..n]);
      NameStep(LowerName(name[..n]), h, i, name[n]);
    }
  }

  /** All five words differ in their first or fourth letter. */
  lemma NameExcludes(word: string, s: string)
    requires word in {CONNECTION, PROXY_CONNECTION, CONTENT_LENGTH, TRANSFER_ENCODING, UPGRADE}
    requires (s <= word || word <= s) && |s| >= 1
    ensures word != PROXY_CONNECTION ==> Excludes(PROXY_CONNECTION, s)
    ensures word != TRANSFER_ENCODING ==> Excludes(TRANSFER_ENCODING, s)
    ensures word != UPGRADE ==> Excludes(UPGRADE, s)
    ensures word != CONNECTION && (word != CONTENT_LENGTH || |s| >= 4) ==> Excludes(CONNECTION, s)
    ensures word != CONTENT_LENGTH && (word != CONNECTION || |s| >= 4) ==> Excludes(CONTENT_LENGTH, s)
  {
    hide Excludes;
    if word != PROXY_CONNECTION { Differs(word, PROXY_CONNECTION, s, 0); }
    if word != TRANSFER_ENCODING { Differs(word, TRANSFER_ENCODING, s, 0); }
    if word != UPGRADE { Differs(word, UPGRADE, s, 0); }
    if word != CONNECTION && (word != CONTENT_LENGTH || |s| >= 4) {
      Differs(word, CONNECTION, s, if word == CONTENT_LENGTH then 3 else 0);
    }
    if word != CONTENT_LENGTH && (word != CONNECTION || |s| >= 4) {
      Differs(word, CONTENT_LENGTH, s, if word == CONNECTION then 3 else 0);
    }
  }

  /** The word a state is comparing the name with, or has found. */
  function WordOf(h: HState, s: string): string
  {
    match h
    case C | CO | CON | MatchConnection => CONNECTION
    case Connection => if CONNECTION <= s then CONNECTION else PROXY_CONNECTION
    case MatchProxyConnection => PROXY_CONNECTION
    case MatchContentLength | ContentLength => CONTENT_LENGTH
    case MatchTransferEncoding | TransferEncoding => TRANSFER_ENCODING
    case _ => UPGRADE
  }

  /** Once excluded, a word stays excluded. */
  lemma ExcludedStay(s: string, c: char)
    ensures Excludes(CONNECTION, s) ==> Excludes(CONNECTION, s + [c])
    ensures Excludes(PROXY_CONNECTION, s) ==> Excludes(PROXY_CONNECTION, s + [c])
    ensures Excludes(CONTENT_LENGTH, s) ==> Excludes(CONTENT_LENGTH, s + [c])
    ensures Excludes(TRANSFER_ENCODING, s) ==> Excludes(TRANSFER_ENCODING, s + [c])
    ensures Excludes(UPGRADE, s) ==> Excludes(UPGRADE, s + [c])
  {
    hide Excludes, Is;
    Longer(CONNECTION, s, c);
    Longer(PROXY_CONNECTION, s, c);
    Longer(CONTENT_LENGTH, s, c);
    Longer(TRANSFER_ENCODING, s, c);
    Longer(UPGRADE, s, c);
  }

  lemma NameStepShort(s: string, h: HState, i: nat, ch: char)
    requires NameMeans(s, h, i) && (h.C? || h.CO? || h.CON?)
    ensures var (h', i') := FieldNext(h, i, ch, Token(ch)); NameMeans(s + [Token(ch)], h', i')
  {
    hide Excludes, Token, Is;
    var c := Token(ch);
    assert s <= CONNECTION && s <= CONTENT_LENGTH;
    ExcludedStay(s, c);
    NameExcludes(CONNECTION, s);
    Longer(CONNECTION, s, c);
    Longer(CONTENT_LENGTH, s, c);
    if h.CON? { NameExcludes4(s, c); }
    assert "c" + "o" == "co" && "co" + "n" == "con";
  }

  /** The fourth letter decides between the two words that start alike. */
  lemma NameExcludes4(s: string, c: char)
    requires s == "con"
    ensures s + [c] <= CONNECTION ==> Excludes(CONTENT_LENGTH, s + [c])
    ensures s + [c] <= CONTENT_LENGTH ==> Excludes(CONNECTION, s + [c])
  {
    hide Excludes, Is;
    if s + [c] <= CONNECTION { Differs(CONNECTION, CONTENT_LENGTH, s + [c], 3); }
    if s + [c] <= CONTENT_LENGTH { Differs(CONTENT_LENGTH, CONNECTION, s + [c], 3); }
  }

  lemma NameStepMatching(s: string, h: HState, i: nat, ch: char)
    requires NameMeans(s, h, i) && Token(ch) != NUL
    requires h in
      {MatchConnection, MatchProxyConnection, MatchContentLength, MatchTransferEncoding, MatchUpgrade}
    ensures var (h', i') := FieldNext(h, i, ch, Token(ch)); NameMeans(s + [Token(ch)], h', i')
  {
    hide Token, Is, Excludes;
    var c, w := Token(ch), WordOf(h, s);
    Longer(w, s, c);
    NameExcludes(w, s);
    ExcludedStay(s, c);
  }

  lemma NameStepFound(s: string, h: HState, i: nat, ch: char)
    requires NameMeans(s, h, i) && Token(ch) != NUL
    requires h.Connection? || h.ContentLength? || h.TransferEncoding? || h.Upgrade?
    ensures var (h', i') := FieldNext(h, i, ch, Token(ch)); NameMeans(s + [Token(ch)], h', i')
  {
    hide Token, Is, Excludes;
    var c := Token(ch);
    var w := if h.Connection? && !Is(CONNECTION, s) then PROXY_CONNECTION else WordOf(h, CONNECTION);
    assert Is(w, s);
    TokenSpace(ch);
    IsStarts(w, s);
    Longer(w, s, c);
    NameExcludes(w, s);
    ExcludedStay(s, c);
  }

  lemma NameStep(s: string, h: HState, i: nat, ch: char)
    requires NameMeans(s, h, i) && FieldHState(h) && Token(ch) != NUL
    ensures var (h', i') := FieldNext(h, i, ch, Token(ch)); NameMeans(s + [Token(ch)], h', i')
  {
    hide Excludes, Token, Is;
    if h.General? {
      ExcludedStay(s, Token(ch));
    } else {
      hide NameMeans, FieldNext;
      if h.C? || h.CO? || h.CON? { NameStepShort(s, h, i, ch);
      } else if h.Connection? || h.ContentLength? || h.TransferEncoding? || h.Upgrade? { NameStepFound(s, h, i, ch);
      } else { NameStepMatching(s, h, i, ch); }
    }
  }

  lemma TokenSpace(ch: char)
    ensures Token(ch) == ' ' <==> ch == ' '
  {
  }

  lemma IsStarts(word: string, s: string)
    ensures Is(word, s) ==> word <= s
  {
  }

  lemma NameFirst(c: char)
    requires c != NUL
    ensures NameMeans([c], FieldFirst(c), 0)
  {
    hide Is;
    var s := [c];
    assert |s| == 1 && s[0] == c;
    forall w | w in {CONNECTION, PROXY_CONNECTION, CONTENT_LENGTH, TRANSFER_ENCODING, UPGRADE} && w[0] != c
      ensures Excludes(w, s)
    {
      IsStarts(w, s);
    }
  }

  // ----- values

  /** A header value as the parser accepts it: bytes other than the two that end the line. */
  ghost predicate Text(s: string) { forall i :: 0 <= i < |s| ==> s[i] != CR && s[i] != LF && s[i] < 256 as char }

  predicate WordChar(c: char) { 'a' <= c <= 'z' || c == '-' }

  /** Setting bit 5 compares like case folding, with a letter or '-', since CR is excluded. */
  lemma LowerFolds(ch: char, w: char)
    requires ch != CR && ch < 256 as char && WordChar(w)
    ensures Lower(ch) == w <==> Fold(ch) == w
  {
  }

  /** What each state says about the folded value read so far, for a name of class `cls`. */
  ghost predicate ValueMeans(cls: HState, s: string, h: HState, i: nat)
  {
    match cls
    case Connection =>
      (match h
       case MatchKeepAlive => s <= KEEP_ALIVE && 1 <= |s| == i + 1 < |KEEP_ALIVE|
       case MatchClose => s <= CLOSE && 1 <= |s| == i + 1 < |CLOSE|
       case IsKeepAlive => Is(KEEP_ALIVE, s)
       case IsClose => Is(CLOSE, s)
       case General => Excludes(KEEP_ALIVE, s) && Excludes(CLOSE, s)
       case _ => false)
    case TransferEncoding =>
      (match h
       case MatchChunked => s <= CHUNKED && 1 <= |s| == i + 1 < |CHUNKED|
       case IsChunked => Is(CHUNKED, s)
       case General => Excludes(CHUNKED, s)
       case _ => false)
    case ContentLength => h == ContentLength
    case _ => h == General
  }

  /** The words start differently. */
  lemma ValueExcludes(s: string)
    requires |s| >= 1
    ensures s <= KEEP_ALIVE || Is(KEEP_ALIVE, s) ==> Excludes(CLOSE, s)
    ensures s <= CLOSE || Is(CLOSE, s) ==> Excludes(KEEP_ALIVE, s)
  {
    hide Excludes;
    if s <= KEEP_ALIVE || KEEP_ALIVE <= s { Differs(KEEP_ALIVE, CLOSE, s, 0); }
    if s <= CLOSE || CLOSE <= s { Differs(CLOSE, KEEP_ALIVE, s, 0); }
  }

  lemma AdvanceFolds(word: string, i: nat, ch: char, h: HState, found: HState)
    requires |word| >= 2 && (forall k :: 0 <= k < |word| ==> WordChar(word[k]))
    requires ch != CR && ch < 256 as char
    ensures Advance(word, i, Lower(ch), h, found) == Advance(word, i, Fold(ch), h, found)
  {
    if i < |word| { LowerFolds(ch, word[i]); }
  }

  lemma ValueStepConnection(s: string, p: P, ch: char)
    requires ValueMeans(Connection, s, p.hs, p.index) && |s| >= 1
    requires ch != CR && ch < 256 as char
    ensures var o := ValueNext(p, ch);
      && o == Out(Go, p.(hs := o.p.hs, index := o.p.index), Done)
      && ValueMeans(Connection, s + [Fold(ch)], o.p.hs, o.p.index)
  {
    hide Is, Excludes, Lower, Fold;
    FoldSpace(ch);
    Longer(KEEP_ALIVE, s, Fold(ch));
    Longer(CLOSE, s, Fold(ch));
    ValueExcludes(s);
    match p.hs {
      case MatchKeepAlive => AdvanceFolds(KEEP_ALIVE, p.index + 1, ch, p.hs, IsKeepAlive);
      case MatchClose => AdvanceFolds(CLOSE, p.index + 1, ch, p.hs, IsClose);
      case _ => hide Advance;
    }
  }

  lemma ValueStepEncoding(s: string, p: P, ch: char)
    requires ValueMeans(TransferEncoding, s, p.hs, p.index) && |s| >= 1
    requires ch != CR && ch < 256 as char
    ensures var o := ValueNext(p, ch);
      && o == Out(Go, p.(hs := o.p.hs, index := o.p.index), Done)
      && ValueMeans(TransferEncoding, s + [Fold(ch)], o.p.hs, o.p.index)
  {
    hide Is, Excludes, Lower, Fold;
    AdvanceFolds(CHUNKED, p.index + 1, ch, p.hs, IsChunked);
    FoldSpace(ch);
    Longer(CHUNKED, s, Fold(ch));
  }

  lemma ValueStep(cls: HState, s: string, p: P, ch: char)
    requires ValueMeans(cls, s, p.hs, p.index) && |s| >= 1
    requires ch != CR && ch < 256 as char
    requires cls.ContentLength? ==> ch == ' ' || IsDigit(ch)
    ensures var o := ValueNext(p, ch);
      && ValueMeans(cls, s + [Fold(ch)], o.p.hs, o.p.index)
      && o == Out(Go, p.(hs := o.p.hs, index := o.p.index,
           clen := if cls.ContentLength? && ch != ' ' then (p.clen * 10 + Digit(ch)) % TWO_64 else p.clen), Done)
  {
    hide Is, Excludes, Lower, Fold;
    if cls.Connection? {
      hide ValueMeans, ValueNext;
      ValueStepConnection(s, p, ch);
    } else if cls.TransferEncoding? {
      hide ValueMeans, ValueNext;
      ValueStepEncoding(s, p, ch);
    }
  }

  lemma FoldSpace(ch: char)
    ensures Fold(ch) == ' ' <==> ch == ' '
  {
  }

  lemma ValueStart(p: P, ch: char)
    requires ch != CR && ch != LF && ch < 256 as char && ch != ' '
    requires p.hs.ContentLength? ==> IsDigit(ch)
    ensures var o := ValueFirst(p, ch);
      && o.v.Go? && o.acts == Do1(Mark(Value)) && (p.index == 0 ==> ValueMeans(p.hs, [Fold(ch)], o.p.hs, o.p.index))
      && o.p == p.(hs := o.p.hs, clen := o.p.clen, flags := p.flags.(upgrade := p.flags.upgrade || p.hs.Upgrade?))
      && (o.p.clen == if p.hs.ContentLength? then Digit(ch) else p.clen)
  {
    hide Lower, Fold;
    LowerFolds(ch, 'k');
    LowerFolds(ch, 'c');
    var s := [Fold(ch)];
    assert |s| == 1 && s[0] == Fold(ch);
  }

  /** The value of a Content-Length header: a digit, then digits and spaces. */
  predicate LengthText(s: string)
  {
    s != "" && IsDigit(s[0]) && forall i :: 0 <= i < |s| ==> s[i] == ' ' || IsDigit(s[i])
  }

  /** The number written by the digits of s, in which spaces do not count. */
  function Decimal(s: string): nat
  {
    if s == "" then 0
    else
      var n := |s| - 1;
      Decimal(s[..n]) * (if IsDigit(s[n]) then 10 else 1) + (if IsDigit(s[n]) then Digit(s[n]) else 0)
  }

  lemma ModStep(x: nat, d: nat)
    ensures (x % TWO_64 * 10 + d) % TWO_64 == (x * 10 + d) % TWO_64
  {
    var q := x / TWO_64;
    assert x * 10 + d == (x % TWO_64 * 10 + d) + TWO_64 * (q * 10);
    ModMultiple(x % TWO_64 * 10 + d, q * 10);
  }

  lemma {:induction false} ModMultiple(a: nat, k: nat)
    ensures (a + TWO_64 * k) % TWO_64 == a % TWO_64
  {
    if k > 0 { ModMultiple(a, k - 1); }
  }

  /** The record after a value, for the record p before it. */
  ghost predicate AfterValue(p: P, value: string, q: P)
  {
    && q == p.(state := HeaderValue, hs := q.hs, index := q.index, nread := p.nread + |value|,
               flags := p.flags.(upgrade := p.flags.upgrade || p.hs.Upgrade?),
               clen := if p.hs.ContentLength? then Decimal(value) % TWO_64 else p.clen)
    && ValueMeans(p.hs, FoldAll(value), q.hs, q.index)
  }

  lemma ArmOfValueStart(skip: bool, p: P, ch: char)
    requires p.state.HeaderValueStart? && ch != ' '
    ensures Arm(skip, p, ch) == ValueFirst(p.(state := HeaderValue, index := 0), ch)
  {
    hide ValueFirst;
  }

  lemma ValueFeedFirst(skip: bool, p: P, ch: char)
    requires p.state.HeaderValueStart? && p.nread < MAX_HEADER_SIZE
    requires ch != ' ' && Text([ch]) && (p.hs.ContentLength? ==> IsDigit(ch))
    ensures var r := Feed(skip, p, [ch]);
      r == Trace(Go, 1, r.p, [], Tag(Value, [ch])) && AfterValue(p, [ch], r.p)
  {
    hide Arm, ValueFirst, Fold, ValueMeans, IsDigit, Digit, Feed, Decimal;
    assert [ch][0] == ch;
    ArmOfValueStart(skip, Counted(p), ch);
    ValueStart(Counted(p).(state := HeaderValue, index := 0), ch);
    StepByte(skip, p, ch);
    FeedOne(skip, p, ch);
    assert FoldAll([ch]) == [Fold(ch)];
    DecimalOne(ch);
  }

  lemma DecimalOne(ch: char)
    ensures IsDigit(ch) ==> Decimal([ch]) % TWO_64 == Digit(ch)
  {
    assert [ch][..0] == "";
  }

  lemma ValueFeedNext(skip: bool, p: P, value: string, q: P, ch: char)
    requires p.nread + |value| < MAX_HEADER_SIZE && value != "" && AfterValue(p, value, q)
    requires Text([ch]) && (p.hs.ContentLength? ==> ch == ' ' || IsDigit(ch))
    ensures var o := Step(skip, q, ch);
      o == Outcome(Go, o.p, [], [D(Value, ch)]) && AfterValue(p, value + [ch], o.p)
  {
    hide ValueNext, Lower, Fold, ValueMeans, Digit, Decimal, Token, FieldNext, ValueFirst, EndOfHeaders;
    assert [ch][0] == ch;
    ValueStep(p.hs, FoldAll(value), Counted(q), ch);
    assert FoldAll(value + [ch]) == FoldAll(value) + [Fold(ch)];
    DecimalNext(value, ch);
    ModStep(Decimal(value), if IsDigit(ch) then Digit(ch) else 0);
  }

  lemma DecimalNext(s: string, ch: char)
    ensures Decimal(s + [ch]) == Decimal(s) * (if IsDigit(ch) then 10 else 1) + (if IsDigit(ch) then Digit(ch) else 0)
  {
    assert (s + [ch])[..|s|] == s;
  }

  lemma {:induction false} ValueFeed(skip: bool, p: P, value: string)
    requires p.state.HeaderValueStart? && p.nread + |value| <= MAX_HEADER_SIZE
    requires value != "" && value[0] != ' ' && Text(value) && (p.hs.ContentLength? ==> LengthText(value))
    ensures var r := Feed(skip, p, value);
      r == Trace(Go, |value|, r.p, [], Tag(Value, value)) && AfterValue(p, value, r.p)
  {
    hide AfterValue, Step, IsDigit;
    var n := |value| - 1;
    var ch := value[n];
    assert value == value[..n] + [ch];
    TagAppend(Value, value[..n], [ch]);
    if n == 0 {
      assert value == [ch];
      ValueFeedFirst(skip, p, ch);
    } else {
      ValueFeed(skip, p, value[..n]);
      ValueFeedNext(skip, p, value[..n], Feed(skip, p, value[..n]).p, ch);
    }
  }

  // ----- lines

  /** The class of a name, by comparison of the whole name with the five words, without regard to case. */
  function NameClass(name: string): HState
  {
    var s := FoldAll(name);
    if Is("connection", s) || Is("proxy-connection", s) then Connection
    else if Is("content-length", s) then ContentLength
    else if Is("transfer-encoding", s) then TransferEncoding
    else if Is("upgrade", s) then Upgrade
    else General
  }

  /** The flags after a header line, by comparison of whole strings. */
  function LineFlags(f: Flags, name: string, value: string): Flags
  {
    var v := FoldAll(value);
    match NameClass(name)
    case Connection => f.(keepAlive := f.keepAlive || Is("keep-alive", v), close := f.close || Is("close", v))
    case TransferEncoding => f.(chunked := f.chunked || Is("chunked", v))
    case Upgrade => f.(upgrade := f.upgrade || value != "")
    case _ => f
  }

  /** The body length after a header line. */
  function LineLength(n: nat, name: string, value: string): nat
  {
    if NameClass(name).ContentLength? && value != "" then Decimal(value) % TWO_64 else n
  }

  predicate Final(h: HState) { h.Connection? || h.ContentLength? || h.TransferEncoding? || h.Upgrade? }

  lemma NamePartial(word: string, s: string)
    requires s <= word && s != word
    ensures !Is(word, s)
  {
  }

  /** The automaton ends in a final state exactly for the names of that class. */
  lemma NameDecides(name: string)
    requires name != "" && NameText(name)
    ensures var h := NameRun(name).0; NameClass(name) == (if Final(h) then h else General)
  {
    hide Is, Excludes, NameRun, LowerName, FoldAll, NameText, TokenString;
    NameTextIs(name);
    NameAutomaton(name);
    var s, h := LowerName(name), NameRun(name).0;
    assert "c" <= CONNECTION && "co" <= CONNECTION && "con" <= CONNECTION;
    assert "c" <= CONTENT_LENGTH && "co" <= CONTENT_LENGTH && "con" <= CONTENT_LENGTH;
    NameDecided(s, h, NameRun(name).1);
  }

  lemma NameDecided(s: string, h: HState, i: nat)
    requires NameMeans(s, h, i) && s != ""
    ensures !Final(h) ==>
      && !Is(CONNECTION, s) && !Is(PROXY_CONNECTION, s) && !Is(CONTENT_LENGTH, s) && !Is(TRANSFER_ENCODING, s)
      && !Is(UPGRADE, s)
    ensures h.Connection? ==> Is(CONNECTION, s) || Is(PROXY_CONNECTION, s)
    ensures h.ContentLength? ==> Is(CONTENT_LENGTH, s) && !Is(CONNECTION, s) && !Is(PROXY_CONNECTION, s)
    ensures h.TransferEncoding? ==>
      Is(TRANSFER_ENCODING, s) && !Is(CONNECTION, s) && !Is(PROXY_CONNECTION, s) && !Is(CONTENT_LENGTH, s)
    ensures h.Upgrade? ==>
      && Is(UPGRADE, s) && !Is(CONNECTION, s) && !Is(PROXY_CONNECTION, s) && !Is(CONTENT_LENGTH, s)
      && !Is(TRANSFER_ENCODING, s)
  {
    hide Is;
    if !h.General? {
      var w := if h.Connection? && !Is(CONNECTION, s) then PROXY_CONNECTION else WordOf(h, CONNECTION);
      IsStarts(w, s);
      NameExcludes(w, s);
      if s <= w && s != w { NamePartial(w, s); }
      if h.C? || h.CO? || h.CON? { NamePartial(CONTENT_LENGTH, s); }
    }
  }

  lemma NameFeedFirst(skip: bool, p: P, ch: char)
    requires p.state.HeaderFieldStart? && p.nread < MAX_HEADER_SIZE && Token(ch) != NUL
    ensures Step(skip, p, ch) == Outcome(Go,
      p.(state := HeaderField, hs := FieldFirst(Token(ch)), index := 0, nread := p.nread + 1), [], [D(Field, ch)])
  {
    hide Step, Token, FieldFirst, FieldNext, ValueFirst, ValueNext, EndOfHeaders;
    TokenSeparators();
    StepIs(skip, p, ch, ArmHeader(skip, Counted(p), ch));
  }

  lemma NameFeedNext(skip: bool, p: P, ch: char)
    requires p.state.HeaderField? && FieldHState(p.hs) && p.nread < MAX_HEADER_SIZE && Token(ch) != NUL
    ensures var (h, i) := FieldNext(p.hs, p.index, ch, Token(ch));
      Step(skip, p, ch) == Outcome(Go, p.(hs := h, index := i, nread := p.nread + 1), [], [D(Field, ch)])
  {
    hide Token, FieldHState, FieldFirst, FieldNext, ValueFirst, ValueNext, EndOfHeaders;
  }

  lemma TokenSeparators()
    ensures Token(CR) == NUL && Token(LF) == NUL && Token(':') == NUL
  {
  }

  lemma {:induction false} NameFeed(skip: bool, p: P, name: string)
    requires p.state.HeaderFieldStart? && p.nread + |name| <= MAX_HEADER_SIZE
    requires name != "" && TokenString(name)
    ensures Feed(skip, p, name) == Trace(Go, |name|,
      p.(state := HeaderField, hs := NameRun(name).0, index := NameRun(name).1, nread := p.nread + |name|),
      [], Tag(Field, name))
  {
    hide Token, FieldFirst, FieldNext, FieldHState, Step;
    var n := |name| - 1;
    var ch := name[n];
    assert name == name[..n] + [ch];
    TagAppend(Field, name[..n], [ch]);
    if n == 0 {
      assert name[..0] == "";
      NameFeedFirst(skip, p, ch);
    } else {
      NameFeed(skip, p, name[..n]);
      NameFeedNext(skip, Feed(skip, p, name[..n]).p, ch);
    }
  }

  lemma ColonStep(skip: bool, p: P)
    requires p.state.HeaderField? && p.nread < MAX_HEADER_SIZE
    ensures Feed(skip, p, ":") == Trace(Go, 1, p.(state := HeaderValueStart, nread := p.nread + 1), [], [])
  {
    hide Token, FieldHState, FieldFirst, FieldNext, ValueFirst, ValueNext, EndOfHeaders, Feed;
    TokenSeparators();
    FeedOne(skip, p, ':');
  }

  function Spaces(n: nat): (s: string)
    ensures |s| == n
  {
    seq(n, i => ' ')
  }

  lemma PadStep(skip: bool, p: P)
    requires p.state.HeaderValueStart? && p.nread < MAX_HEADER_SIZE
    ensures Step(skip, p, ' ') == Outcome(Go, p.(nread := p.nread + 1), [], [])
  {
    hide ValueFirst, FieldNext, FieldFirst, ValueNext, EndOfHeaders;
  }

  lemma {:induction false} PadFeed(skip: bool, p: P, n: nat)
    requires p.state.HeaderValueStart? && p.nread + n <= MAX_HEADER_SIZE
    ensures Feed(skip, p, Spaces(n)) == Trace(Go, n, p.(nread := p.nread + n), [], [])
  {
    hide Step;
    if n > 0 {
      PadFeed(skip, p, n - 1);
      assert Spaces(n)[..n - 1] == Spaces(n - 1);
      PadStep(skip, Feed(skip, p, Spaces(n - 1)).p);
    }
  }

  /** The two ends of a line that the parser accepts. */
  function Eol(crlf: bool): string { if crlf then "\r\n" else "\n" }

  function FlagsFor(f: Flags, h: HState): Flags
  {
    match h
    case IsKeepAlive => f.(keepAlive := true)
    case IsClose => f.(close := true)
    case IsChunked => f.(chunked := true)
    case _ => f
  }

  lemma CrStep(skip: bool, p: P)
    requires (p.state.HeaderValue? || p.state.HeaderValueStart?) && p.nread < MAX_HEADER_SIZE
    ensures Feed(skip, p, "\r") == Trace(Go, 1, p.(state := HeaderAlmostDone, nread := p.nread + 1,
      hs := if p.state.HeaderValue? then p.hs else General, index := if p.state.HeaderValue? then p.index else 0),
      [], [])
  {
    hide Token, FieldNext, FieldFirst, ValueNext, EndOfHeaders, EndOfLine, Feed;
    FeedOne(skip, p, CR);
  }

  lemma LfStep(skip: bool, p: P)
    requires (p.state.HeaderValue? || p.state.HeaderAlmostDone?) && p.nread < MAX_HEADER_SIZE
    ensures Feed(skip, p, "\n") == Trace(Go, 1,
      p.(state := HeaderFieldStart, nread := p.nread + 1, flags := FlagsFor(p.flags, p.hs)), [], [])
  {
    hide Token, FieldNext, FieldFirst, ValueFirst, ValueNext, EndOfHeaders, Feed;
    FeedOne(skip, p, LF);
  }

  lemma LfAtStart(skip: bool, p: P)
    requires p.state.HeaderValueStart? && p.nread < MAX_HEADER_SIZE
    ensures Feed(skip, p, "\n") == Trace(Go, 1, p.(state := HeaderFieldStart, nread := p.nread + 1, index := 0), [], [])
  {
    hide Token, FieldNext, FieldFirst, ValueNext, EndOfHeaders, Feed;
    FeedOne(skip, p, LF);
  }

  lemma EolFeed(skip: bool, p: P, crlf: bool)
    requires (p.state.HeaderValue? || p.state.HeaderValueStart?) && p.nread + |Eol(crlf)| <= MAX_HEADER_SIZE
    ensures var r := Feed(skip, p, Eol(crlf));
      && r == Trace(Go, |Eol(crlf)|, r.p, [], [])
      && r.p == p.(state := HeaderFieldStart, nread := p.nread + |Eol(crlf)|, hs := r.p.hs, index := r.p.index,
           flags := if p.state.HeaderValue? then FlagsFor(p.flags, p.hs) else p.flags)
  {
    hide Feed, Step;
    if crlf {
      CrStep(skip, p);
      LfStep(skip, Feed(skip, p, "\r").p);
      FeedAppend(skip, p, "\r", "\n");
      assert "\r" + "\n" == "\r\n";
    } else if p.state.HeaderValue? {
      LfStep(skip, p);
    } else {
      LfAtStart(skip, p);
    }
  }

  /** A header line: a name, a colon, spaces, a value, and the end of the line. */
  datatype Line = Line(name: string, pad: nat, value: string, crlf: bool) {
    function Raw(): string { name + ":" + Spaces(pad) + value + Eol(crlf) }

    ghost predicate Valid()
    {
      && name != "" && NameText(name)
      && Text(value) && (value != "" ==> value[0] != ' ')
      && (NameClass(name).ContentLength? && value != "" ==> LengthText(value))
    }
  }

  lemma {:induction false} HeadOfLine(skip: bool, p: P, l: Line)
    requires p.state.HeaderFieldStart? && l.Valid() && p.nread + |l.name| + 1 + l.pad <= MAX_HEADER_SIZE
    ensures var s := l.name + ":" + Spaces(l.pad);
      Feed(skip, p, s) == Trace(Go, |s|,
        p.(state := HeaderValueStart, hs := NameRun(l.name).0, index := NameRun(l.name).1, nread := p.nread + |s|),
        [], Tag(Field, l.name))
  {
    hide Feed, Step, NameRun, TokenString, Text, LengthText, NameClass, NameText;
    NameTextIs(l.name);
    NameFeed(skip, p, l.name);
    var q := Feed(skip, p, l.name).p;
    ColonStep(skip, q);
    FeedAppend(skip, p, l.name, ":");
    PadFeed(skip, Feed(skip, q, ":").p, l.pad);
    FeedAppend(skip, p, l.name + ":", Spaces(l.pad));
  }

  /** The state at the end of a value says whether it is one of the words looked for. */
  lemma WordDecides(cls: HState, v: string, h: HState, i: nat)
    requires ValueMeans(cls, v, h, i) && v != ""
    ensures cls.Connection? ==>
      (h.IsKeepAlive? <==> Is(KEEP_ALIVE, v)) && (h.IsClose? <==> Is(CLOSE, v)) && !h.IsChunked?
    ensures cls.TransferEncoding? ==> (h.IsChunked? <==> Is(CHUNKED, v)) && !h.IsKeepAlive? && !h.IsClose?
    ensures !cls.Connection? && !cls.TransferEncoding? ==> !h.IsKeepAlive? && !h.IsClose? && !h.IsChunked?
  {
    hide Is, Excludes;
    ExcludesIs(KEEP_ALIVE, v);
    ExcludesIs(CLOSE, v);
    ExcludesIs(CHUNKED, v);
    ValueExcludes(v);
    if h.MatchKeepAlive? { NamePartial(KEEP_ALIVE, v); }
    if h.MatchClose? { NamePartial(CLOSE, v); }
    if h.MatchChunked? { NamePartial(CHUNKED, v); }
  }

  /** The end of a value decides the flags exactly as the whole value does. */
  lemma ValueDecides(f: Flags, name: string, value: string, h: HState, i: nat)
    requires name != "" && NameText(name) && value != ""
    requires ValueMeans(NameRun(name).0, FoldAll(value), h, i)
    ensures FlagsFor(f.(upgrade := f.upgrade || NameRun(name).0.Upgrade?), h) == LineFlags(f, name, value)
  {
    hide NameRun, LowerName, NameClass, Is, Excludes, FoldAll, ValueMeans;
    NameDecides(name);
    WordDecides(NameRun(name).0, FoldAll(value), h, i);
  }

  lemma ExcludesIs(word: string, s: string)
    ensures Excludes(word, s) ==> !Is(word, s)
  {
  }

  /** A header line delivers its name and its value, and changes the flags and the body length
      exactly as comparing the whole name and the whole value with the fixed words does. */
  lemma {:induction false} HeaderLine(skip: bool, p: P, l: Line)
    requires p.state.HeaderFieldStart? && l.Valid() && p.nread + |l.Raw()| <= MAX_HEADER_SIZE
    ensures var r := Feed(skip, p, l.Raw());
      && r == Trace(Go, |l.Raw()|, r.p, [], Tag(Field, l.name) + Tag(Value, l.value))
      && r.p == p.(nread := p.nread + |l.Raw()|, hs := r.p.hs, index := r.p.index,
           flags := LineFlags(p.flags, l.name, l.value), clen := LineLength(p.clen, l.name, l.value))
  {
    hide Feed, Step, NameRun, NameText, Text, LengthText, NameClass, LineFlags;
    var head := l.name + ":" + Spaces(l.pad);
    HeadOfLine(skip, p, l);
    var q := Feed(skip, p, head).p;
    NameDecides(l.name);
    if l.value == "" {
      EolFeed(skip, q, l.crlf);
      FeedAppend(skip, p, head, Eol(l.crlf));
      assert l.Raw() == head + Eol(l.crlf);
      EmptyValue(p.flags, l.name);
    } else {
      ValueFeed(skip, q, l.value);
      FeedAppend(skip, p, head, l.value);
      var t := Feed(skip, q, l.value).p;
      ValueDecides(p.flags, l.name, l.value, t.hs, t.index);
      EolFeed(skip, t, l.crlf);
      FeedAppend(skip, p, head + l.value, Eol(l.crlf));
    }
  }

  lemma EmptyValue(f: Flags, name: string)
    ensures LineFlags(f, name, "") == f
    ensures Tag(Value, "") == []
  {
  }

  /** The first byte at which a text stops being a length. */
  lemma {:induction false} FirstBad(s: string) returns (k: nat)
    requires s != "" && !LengthText(s)
    ensures k < |s| && !IsDigit(s[k]) && (k > 0 ==> s[k] != ' ' && LengthText(s[..k]))
  {
    if !IsDigit(s[0]) { return 0; }
    k := 1;
    while s[k] == ' ' || IsDigit(s[k])
      invariant 1 <= k < |s|
      invariant forall i :: 0 <= i < k ==> s[i] == ' ' || IsDigit(s[i])
      decreases |s| - k
    {
      if k + 1 == |s| { assert LengthText(s); }
      k := k + 1;
    }
  }

  lemma BadDigit(skip: bool, p: P, ch: char)
    requires p.hs.ContentLength? && p.nread < MAX_HEADER_SIZE && ch != CR && ch != LF && ch != ' ' && !IsDigit(ch)
    requires p.state.HeaderValueStart? || p.state.HeaderValue?
    ensures Feed(skip, p, [ch]).v.Fail?
  {
    hide FieldNext, FieldFirst, EndOfHeaders, Feed;
    FeedOne(skip, p, ch);
  }

  /** A Content-Length value that is not a digit followed by digits and spaces is an error. */
  lemma {:induction false} BadLength(skip: bool, p: P, l: Line)
    requires p.state.HeaderFieldStart? && p.nread + |l.Raw()| <= MAX_HEADER_SIZE
    requires l.(value := "").Valid() && Text(l.value) && l.value != "" && l.value[0] != ' '
    requires NameClass(l.name).ContentLength? && !LengthText(l.value)
    ensures Feed(skip, p, l.Raw()).v.Fail?
  {
    hide Feed, Step, NameRun, NameText, LengthText, NameClass;
    var head := l.name + ":" + Spaces(l.pad);
    HeadOfLine(skip, p, l.(value := ""));
    var q := Feed(skip, p, head).p;
    NameDecides(l.name);
    var k := FirstBad(l.value);
    var good, ch, rest := l.value[..k], l.value[k], l.value[k + 1..] + Eol(l.crlf);
    assert l.Raw() == (head + good + [ch]) + rest;
    if k > 0 {
      ValueFeed(skip, q, good);
    } else {
      assert good == "";
      FeedEmpty(skip, q);
    }
    var t := Feed(skip, q, good).p;
    assert t.hs.ContentLength?;
    BadDigit(skip, t, ch);
    FeedAppend(skip, p, head, good);
    FeedAppend(skip, p, head + good, [ch]);
    FeedAppend(skip, p, head + good + [ch], rest);
  }
}
