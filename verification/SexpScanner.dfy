/** The scanner as the program it is: one pass over the text, character by character, that appends
    to a growing buffer. It is proved to return what the lexeme-by-lexeme reading says. */
module SexpScanner {
  import opened Bytes
  import opened SexpTokens
  import opened SexpChars
  import opened SexpScan
  import opened SexpScanSteps
  import opened SexpBuffer

  lemma TokenStored(done: seq<Token>, t: Token, r: ScanResult)
    ensures Encode(done + [t]) == Encode(done) + EncodeOne(t)
    ensures Prepend(done, Prepend([t], r)) == Prepend(done + [t], r)
  {
    EncodeConcat(done, [t]);
    EncodeStep(t, []);
    assert [t] + [] == [t];
    assert Encode([]) == [];
    PrependTwice(done, [t], r);
  }

  class Scanner {
    const text: seq<byte>
    const b64: Decoder
    var p: nat
    var level: nat
    var hint: bool
    var mode: Mode
    var out: Buffer
    ghost var done: seq<Token>

    ghost function Goal(): ScanResult {
      Scan(b64, text, 0, 0, false)
    }

    /** What is stored encodes the tokens done, and they and what is to come are the whole text. */
    ghost predicate Inv()
      reads this, out, out.data
    {
      && out.Valid() && out.Used() == Encode(done)
      && Knows(text, p, mode)
      && Goal() == Prepend(done, ToCome(b64, text, p, level, hint, mode))
    }

    /** The outcome of one step: go on in order and further right, or stop with the error of the
        whole text. */
    ghost predicate Result(stop: Option<ScanResult>, from: nat)
      reads this, out, out.data
    {
      if stop.None? then Inv() && from < p
      else stop.value.Failed? && Goal() == stop.value
    }

    constructor (text: seq<byte>, b64: Decoder)
      ensures Inv() && this.text == text && this.b64 == b64
      ensures fresh(out) && fresh(out.data)
    {
      this.text := text;
      this.b64 := b64;
      p, level, hint, mode := 0, 0, false, Between;
      out := new Buffer(|text|);
      done := [];
      new;
      assert text[0..] == text;
      PrependNothing(Goal());
    }

    /** Store a data item and go on behind it. */
    method Emit(d: seq<byte>, next: nat)
      requires out.Valid() && out.Used() == Encode(done) && next <= |text|
      requires Goal() == Prepend(done, Prepend([Data(d)], ToCome(b64, text, next, level, hint, Between)))
      modifies this, out, out.data
      ensures Inv() && p == next && mode == Between
      ensures out == old(out) && (out.data == old(out.data) || fresh(out.data))
    {
      hide Scan, EncodeOne;
      out.PutData(d);
      TokenStored(done, Data(d), ToCome(b64, text, next, level, hint, Between));
      done := done + [Data(d)];
      p, mode := next, Between;
    }

    method EmitTag(t: Token)
      requires out.Valid() && out.Used() == Encode(done) && p < |text| && (t == Open || (t == Close && level > 0))
      requires Goal() == Prepend(done, Prepend([t],
                 ToCome(b64, text, p + 1, if t == Open then level + 1 else level - 1, hint, Between)))
      modifies this, out, out.data
      ensures Inv() && p == old(p) + 1
      ensures out == old(out) && (out.data == old(out.data) || fresh(out.data))
    {
      hide Scan, EncodeOne;
      out.PutTag(t);
      level := if t == Open then level + 1 else level - 1;
      TokenStored(done, t, ToCome(b64, text, p + 1, level, hint, Between));
      done := done + [t];
      p, mode := p + 1, Between;
    }

    /** A token ends in front of the first character that cannot be part of it. */
    method EndToken()
      requires Inv() && p < |text| && mode.InToken? && !IsTokenChar(text[p])
      modifies this, out, out.data
      ensures Inv() && p == old(p) && mode == Between
      ensures out == old(out) && (out.data == old(out.data) || fresh(out.data))
    {
      hide Scan;
      TokenEnds(b64, text, p, level, hint, mode.at);
      Emit(text[mode.at..p], p);
    }

    method StepQuote() returns (stop: Option<ScanResult>)
      requires Inv() && p < |text| && mode.InQuote?
      modifies this, out, out.data
      ensures Result(stop, old(p))
      ensures out == old(out) && (out.data == old(out.data) || fresh(out.data))
    {
      hide Scan, EscapeLen, Unquote, Knows, ToCome;
      QuoteStep(b64, text, p, level, hint, mode.at, mode.esc);
      stop := None;
      if mode.esc {
        var n := EscapeLen(text[p..]);
        if n == 0 {
          return Some(Failed(BadQuotation, Some(p)));
        }
        SameQuote(b64, text, p, p + n, level, hint, mode.at, mode.esc, false);
        p, mode := p + n, mode.(esc := false);
      } else if text[p] == BACKSLASH {
        SameQuote(b64, text, p, p + 1, level, hint, mode.at, mode.esc, true);
        p, mode := p + 1, mode.(esc := true);
      } else if text[p] == DQUOTE {
        KnowsNothing(text, p + 1);
        KnowsStart(text, p, mode.at, mode.esc);
        EndQuote();
      } else {
        SameQuote(b64, text, p, p + 1, level, hint, mode.at, mode.esc, mode.esc);
        p := p + 1;
      }
    }

    /** The closing quote: store the string and go on behind it. */
    method EndQuote()
      requires out.Valid() && out.Used() == Encode(done) && mode.InQuote? && mode.at + 1 <= p < |text|
      requires Knows(text, p + 1, Between)
      requires Goal() == Prepend(done, Prepend([Data(Unquote(text[mode.at + 1..p]))],
                                               ToCome(b64, text, p + 1, level, hint, Between)))
      modifies this, out, out.data
      ensures Inv() && p == old(p) + 1
      ensures out == old(out) && (out.data == old(out.data) || fresh(out.data))
    {
      hide Scan, Unquote, EncodeOne, Knows, ToCome;
      var d := text[mode.at + 1..p];
      out.PutQuoted(d);
      TokenStored(done, Data(Unquote(d)), ToCome(b64, text, p + 1, level, hint, Between));
      done := done + [Data(Unquote(d))];
      p, mode := p + 1, Between;
    }

    method StepHex() returns (stop: Option<ScanResult>)
      requires Inv() && p < |text| && mode.InHex?
      modifies this, out, out.data
      ensures Result(stop, old(p))
      ensures out == old(out) && (out.data == old(out.data) || fresh(out.data))
    {
      hide Scan, HexBytes, Knows, ToCome;
      HexStep(b64, text, p, level, hint, mode.at, mode.count);
      stop := None;
      if IsHex(text[p]) {
        SameHex(b64, text, p, p + 1, level, hint, mode.at, mode.count, mode.count + 1);
        p, mode := p + 1, mode.(count := mode.count + 1);
      } else if text[p] == HASH {
        if mode.count % 2 == 1 {
          return Some(Failed(OddHexNumbers, Some(p)));
        }
        KnowsNothing(text, p + 1);
        KnowsNibbles(text, p, mode.at, mode.count);
        EndHex();
      } else if IsWhite(text[p]) {
        SameHex(b64, text, p, p + 1, level, hint, mode.at, mode.count, mode.count);
        p := p + 1;
      } else {
        return Some(Failed(BadHexChar, Some(p)));
      }
    }

    /** The closing mark: store the bytes and go on behind it. */
    method EndHex()
      requires out.Valid() && out.Used() == Encode(done) && mode.InHex? && mode.at + 1 <= p < |text|
      requires Knows(text, p + 1, Between)
      requires |Nibbles(text[mode.at + 1..p])| == mode.count && mode.count % 2 == 0
      requires Goal() == Prepend(done, Prepend([Data(HexBytes(text[mode.at + 1..p]))],
                                               ToCome(b64, text, p + 1, level, hint, Between)))
      modifies this, out, out.data
      ensures Inv() && p == old(p) + 1
      ensures out == old(out) && (out.data == old(out.data) || fresh(out.data))
    {
      hide Scan, HexBytes, EncodeOne, Nibbles, Knows, ToCome;
      var d := text[mode.at + 1..p];
      out.PutHex(d, mode.count);
      TokenStored(done, Data(HexBytes(d)), ToCome(b64, text, p + 1, level, hint, Between));
      done := done + [Data(HexBytes(d))];
      p, mode := p + 1, Between;
    }

    method StepBase64() returns (stop: Option<ScanResult>)
      requires Inv() && p < |text| && mode.InBase64?
      modifies this, out, out.data
      ensures Result(stop, old(p))
      ensures out == old(out) && (out.data == old(out.data) || fresh(out.data))
    {
      hide Scan, Base64Lex;
      Base64Step(b64, text, p, level, hint, mode.at);
      stop := None;
      if IsBase64(text[p]) {
        p := p + 1;
      } else if text[p] == BAR {
        var d := b64(text[mode.at + 1..p]);
        if d.None? {
          return Some(Failed(BadBase64, None));
        }
        Emit(d.value, p + 1);
      } else {
        return Some(Failed(BadCharacter, Some(p)));
      }
    }

    method StepDigits() returns (stop: Option<ScanResult>)
      requires Inv() && p < |text| && mode.InDigits?
      modifies this, out, out.data
      ensures Result(stop, old(p))
      ensures out == old(out) && (out.data == old(out.data) || fresh(out.data))
    {
      hide Scan, Number, Knows, ToCome;
      DigitsStep(b64, text, p, level, hint, mode.at);
      KnowsDigits(text, p, mode.at);
      stop := None;
      var c := text[p];
      if IsDigit(c) {
        SameDigits(b64, text, p, level, hint, mode.at);
        p := p + 1;
      } else if c == COLON {
        var size := Number(text[mode.at..p]);
        if size > |text| - p - 1 {
          return Some(Failed(StringTooLong, Some(p)));
        }
        KnowsNothing(text, p + 1 + size);
        Emit(text[p + 1..p + 1 + size], p + 1 + size);
      } else if c == DQUOTE {
        p, mode := p + 1, InQuote(p, false);
      } else if c == HASH {
        p, mode := p + 1, InHex(p, 0);
      } else if c == BAR {
        p, mode := p + 1, InBase64(p);
      } else {
        return Some(Failed(InvalidLength, Some(p)));
      }
    }

    method StepBetween() returns (stop: Option<ScanResult>)
      requires Inv() && p < |text| && mode == Between
      modifies this, out, out.data
      ensures Result(stop, old(p))
      ensures out == old(out) && (out.data == old(out.data) || fresh(out.data))
    {
      hide Scan, AfterQuote, AfterHash, AfterBar, QuoteLex, HexLex, Base64Lex, Nibbles;
      BetweenStep(b64, text, p, level, hint);
      stop := None;
      var c := text[p];
      if c == LPAREN {
        if hint {
          return Some(Failed(UnmatchedHint, Some(p)));
        }
        EmitTag(Open);
      } else if c == RPAREN {
        if hint {
          return Some(Failed(UnmatchedHint, Some(p)));
        }
        if level == 0 {
          return Some(Failed(UnmatchedParen, Some(p)));
        }
        EmitTag(Close);
      } else if c == DQUOTE {
        p, mode := p + 1, InQuote(p, false);
      } else if c == HASH {
        p, mode := p + 1, InHex(p, 0);
      } else if c == BAR {
        p, mode := p + 1, InBase64(p);
      } else if c == LBRACKET {
        if hint {
          return Some(Failed(NestedHint, Some(p)));
        }
        p, hint := p + 1, true;
      } else if c == RBRACKET {
        if !hint {
          return Some(Failed(UnmatchedHint, Some(p)));
        }
        p, hint := p + 1, false;
      } else if IsDigit(c) {
        if c == ZERO {
          return Some(Failed(ZeroPrefix, Some(p)));
        }
        p, mode := p + 1, InDigits(p);
      } else if IsTokenChar(c) {
        p, mode := p + 1, InToken(p);
      } else if IsWhite(c) {
        p := p + 1;
      } else if c == LBRACE || c == AMPERSAND || c == BACKSLASH {
        return Some(Failed(UnexpectedPunctuation, Some(p)));
      } else {
        return Some(Failed(BadCharacter, Some(p)));
      }
    }

    /** One character. A character that ends a token is looked at again on its own. */
    method Step() returns (stop: Option<ScanResult>)
      requires Inv() && p < |text|
      modifies this, out, out.data
      ensures Result(stop, old(p))
      ensures out == old(out) && (out.data == old(out.data) || fresh(out.data))
    {
      hide Scan, QuoteLex, HexLex, Base64Lex, Nibbles, ToCome;
      if mode.InToken? && IsTokenChar(text[p]) {
        TokenGoesOn(text, p, mode.at);
        SameToCome(b64, text, p, level, hint, mode);
        p := p + 1;
        return None;
      }
      if mode.InToken? {
        EndToken();
      }
      match mode {
        case Between => stop := StepBetween();
        case InQuote(_, _) => stop := StepQuote();
        case InHex(_, _) => stop := StepHex();
        case InBase64(_) => stop := StepBase64();
        case InDigits(_) => stop := StepDigits();
      }
    }
  }

  lemma KnowsNothing(text: seq<byte>, p: nat)
    requires p <= |text|
    ensures Knows(text, p, Between)
  {}

  lemma KnowsDigits(text: seq<byte>, p: nat, s: nat)
    requires Knows(text, p, InDigits(s))
    ensures s < p <= |text|
  {}

  lemma SameDigits(b64: Decoder, text: seq<byte>, p: nat, level: nat, dh: bool, s: nat)
    requires Knows(text, p, InDigits(s)) && Knows(text, p + 1, InDigits(s))
    ensures ToCome(b64, text, p, level, dh, InDigits(s)) == ToCome(b64, text, p + 1, level, dh, InDigits(s))
  {}

  lemma KnowsStart(text: seq<byte>, p: nat, s: nat, esc: bool)
    requires Knows(text, p, InQuote(s, esc))
    ensures s < p <= |text|
  {}

  lemma KnowsNibbles(text: seq<byte>, p: nat, s: nat, count: nat)
    requires Knows(text, p, InHex(s, count))
    ensures s < p <= |text| && |Nibbles(text[s + 1..p])| == count
  {}

  /** What is still to come of a string does not depend on how far the scanner is in it. */
  lemma SameQuote(b64: Decoder, text: seq<byte>, p: nat, q: nat, level: nat, dh: bool, s: nat, esc: bool, esc': bool)
    requires Knows(text, p, InQuote(s, esc)) && Knows(text, q, InQuote(s, esc'))
    ensures ToCome(b64, text, p, level, dh, InQuote(s, esc)) == ToCome(b64, text, q, level, dh, InQuote(s, esc'))
  {}

  lemma SameHex(b64: Decoder, text: seq<byte>, p: nat, q: nat, level: nat, dh: bool, s: nat, count: nat, count': nat)
    requires Knows(text, p, InHex(s, count)) && Knows(text, q, InHex(s, count'))
    ensures ToCome(b64, text, p, level, dh, InHex(s, count)) == ToCome(b64, text, q, level, dh, InHex(s, count'))
  {}

  lemma TokenGoesOn(text: seq<byte>, p: nat, s: nat)
    requires Knows(text, p, InToken(s)) && p < |text| && IsTokenChar(text[p])
    ensures Knows(text, p + 1, InToken(s))
  {}

  lemma SameToCome(b64: Decoder, text: seq<byte>, p: nat, level: nat, dh: bool, mode: Mode)
    requires mode.InToken? && Knows(text, p, mode) && Knows(text, p + 1, mode)
    ensures ToCome(b64, text, p, level, dh, mode) == ToCome(b64, text, p + 1, level, dh, mode)
  {}

  /** Scan a text: the same outcome as the lexeme-by-lexeme reading, on every text. */
  method ScanText(text: seq<byte>, b64: Decoder) returns (r: Outcome)
    ensures r == Read(b64, text)
  {
    hide Scan, QuoteLex, HexLex, Base64Lex, Nibbles, ToCome, Knows;
    var s := new Scanner(text, b64);
    while s.p < |text|
      invariant s.Inv() && s.text == text && s.b64 == b64
      invariant fresh(s) && fresh(s.out) && fresh(s.out.data)
      decreases |text| - s.p
    {
      var stop := s.Step();
      if stop.Some? {
        return Refused(stop.value.err, stop.value.at);
      }
    }
    AtLast(b64, text, s.p, s.level, s.hint, s.mode);
    s.out.PutStop();
    if s.level > 0 {
      return Refused(UnmatchedParen, None);
    }
    var d := s.out.data[..s.out.pos];
    StoredIsDegenerate(s.done);
    assert s.done + [] == s.done;
    if d[0] == ST_STOP || (d[0] == ST_OPEN && d[1] == ST_CLOSE) {
      r := NoExpression;
    } else {
      r := Expression(d);
    }
  }

  lemma AtLast(b64: Decoder, text: seq<byte>, p: nat, level: nat, dh: bool, mode: Mode)
    requires Knows(text, p, mode) && p >= |text|
    ensures ToCome(b64, text, p, level, dh, mode) == Finish(level)
  {
    AtTheEnd(b64, text, level, dh, mode);
  }

  /** The stored bytes show which expressions are forbidden. */
  lemma StoredIsDegenerate(ts: seq<Token>)
    ensures var d := Stored(ts);
            && d != [] && (d[0] == ST_OPEN ==> |d| > 1)
            && (Degenerate(ts) <==> d[0] == ST_STOP || (d[0] == ST_OPEN && d[1] == ST_CLOSE))
  {
    if ts != [] {
      assert ts == [ts[0]] + ts[1..];
      EncodeStep(ts[0], ts[1..]);
      if |ts| > 1 {
        assert ts[1..] == [ts[1]] + ts[2..];
        EncodeStep(ts[1], ts[2..]);
      }
    }
  }
}
