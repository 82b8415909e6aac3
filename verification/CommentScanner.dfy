/**
 unifdef's skipcomment, and its agreement with translation phases 2 and 3 of section 5.1.1.2
 of ISO/IEC 9899:1999: splice lines first, then recognise comments and literals.

 A buffer is the text before its terminating NUL.
 */
module CommentScanner {

  datatype Comment = NO_COMMENT | C_COMMENT | CXX_COMMENT | STARTING_COMMENT | FINISHING_COMMENT | CHAR_LITERAL | STRING_LITERAL

  datatype LineState = START | HASH | DIRTY

  // The source's strncmp against two and three character literals

  predicate At2(buf: string, cp: nat, a: char, b: char) {
    cp + 2 <= |buf| && buf[cp] == a && buf[cp + 1] == b
  }

  predicate At3(buf: string, cp: nat, a: char, b: char, c: char) {
    cp + 3 <= |buf| && buf[cp] == a && buf[cp + 1] == b && buf[cp + 2] == c
  }

  /** A backslash at the end of a line. */
  predicate AtSplice(buf: string, cp: nat) {
    At2(buf, cp, '\\', '\n')
  }

  /** One turn of the loop: on to a new position and state, stop here, or report an error. */
  datatype Turn = On(cp: nat, st: Comment, ls: LineState) | Stop | Unterminated

  function TurnFor(buf: string, cp: nat, st: Comment, ls: LineState): Turn
    requires cp < |buf|
  {
    if AtSplice(buf, cp) then On(cp + 2, st, ls) else
    match st
    case NO_COMMENT =>
      if At3(buf, cp, '/', '\\', '\n') then On(cp + 3, STARTING_COMMENT, ls)
      else if At2(buf, cp, '/', '*') then On(cp + 2, C_COMMENT, ls)
      else if At2(buf, cp, '/', '/') then On(cp + 2, CXX_COMMENT, ls)
      else if buf[cp] == '\'' then On(cp + 1, CHAR_LITERAL, DIRTY)
      else if buf[cp] == '\"' then On(cp + 1, STRING_LITERAL, DIRTY)
      else if buf[cp] == '\n' then On(cp + 1, NO_COMMENT, START)
      else if buf[cp] == ' ' || buf[cp] == '\t' then On(cp + 1, NO_COMMENT, ls)
      else Stop
    case CXX_COMMENT =>
      if buf[cp] == '\n' then On(cp + 1, NO_COMMENT, START) else On(cp + 1, CXX_COMMENT, ls)
    case CHAR_LITERAL | STRING_LITERAL =>
      if buf[cp] == (if st.CHAR_LITERAL? then '\'' else '\"') then On(cp + 1, NO_COMMENT, ls)
      else if buf[cp] == '\\' then On(if cp + 1 == |buf| then cp + 1 else cp + 2, st, ls)
      else if buf[cp] == '\n' then Unterminated
      else On(cp + 1, st, ls)
    case C_COMMENT =>
      if At3(buf, cp, '*', '\\', '\n') then On(cp + 3, FINISHING_COMMENT, ls)
      else if At2(buf, cp, '*', '/') then On(cp + 2, NO_COMMENT, ls)
      else On(cp + 1, C_COMMENT, ls)
    case STARTING_COMMENT =>
      if buf[cp] == '*' then On(cp + 1, C_COMMENT, ls)
      else if buf[cp] == '/' then On(cp + 1, CXX_COMMENT, ls)
      else On(cp, NO_COMMENT, DIRTY)
    case FINISHING_COMMENT =>
      if buf[cp] == '/' then On(cp + 1, NO_COMMENT, ls) else On(cp, C_COMMENT, ls)
  }

  /** Where skipcomment ends: the terminator or a significant character, or an error. */
  datatype Skipped = Skipped(cp: nat, st: Comment, ls: LineState) | Failed

  /** Twice the characters left, plus one while a turn may leave the position alone. */
  function Fuel(buf: string, cp: nat, st: Comment): int {
    2 * (|buf| - cp) + if st.STARTING_COMMENT? || st.FINISHING_COMMENT? then 1 else 0
  }

  function Skip(buf: string, cp: nat, st: Comment, ls: LineState): Skipped
    requires cp <= |buf|
    decreases Fuel(buf, cp, st)
  {
    if cp == |buf| then Skipped(cp, st, ls) else
    match TurnFor(buf, cp, st, ls)
    case On(cp', st', ls') => Skip(buf, cp', st', ls')
    case Stop => Skipped(cp, st, ls)
    case Unterminated => Failed
  }

  predicate IsSpace(c: char) {
    c in {' ', '\t', '\n', '\r', '\U{0B}', '\U{0C}'}
  }

  /** Text mode, or a block whose comments are ignored: only white space is skipped. */
  function SkipSpace(buf: string, cp: nat, ls: LineState): (nat, LineState)
    requires cp <= |buf|
    decreases |buf| - cp
  {
    if cp == |buf| || !IsSpace(buf[cp]) then (cp, ls)
    else SkipSpace(buf, cp + 1, if buf[cp] == '\n' then START else ls)
  }

  class Scanner {
    var incomment: Comment
    var linestate: LineState

    /** The result is the new position, or -1 when the process ends with an error. */
    method SkipComment(buf: string, start: nat, raw: bool) returns (r: int)
      requires start <= |buf|
      modifies this
      ensures raw ==> incomment == old(incomment) && (r, linestate) == SkipSpace(buf, start, old(linestate))
      ensures !raw ==> match Skip(buf, start, old(incomment), old(linestate))
                       case Skipped(cp, st, ls) => r == cp && incomment == st && linestate == ls
                       case Failed => r == -1
    {
      var cp := start;
      if raw {
        while cp < |buf| && IsSpace(buf[cp])
          invariant start <= cp <= |buf| && incomment == old(incomment)
          invariant SkipSpace(buf, cp, linestate) == SkipSpace(buf, start, old(linestate))
        {
          if buf[cp] == '\n' { linestate := START; }
          cp := cp + 1;
        }
        return cp;
      }
      while cp < |buf|
        invariant start <= cp <= |buf|
        invariant Skip(buf, cp, incomment, linestate) == Skip(buf, start, old(incomment), old(linestate))
        decreases Fuel(buf, cp, incomment)
      {
        if At2(buf, cp, '\\', '\n') {
          cp := cp + 2;
        } else {
          match incomment
          case NO_COMMENT =>
            if At3(buf, cp, '/', '\\', '\n') {
              incomment, cp := STARTING_COMMENT, cp + 3;
            } else if At2(buf, cp, '/', '*') {
              incomment, cp := C_COMMENT, cp + 2;
            } else if At2(buf, cp, '/', '/') {
              incomment, cp := CXX_COMMENT, cp + 2;
            } else if buf[cp] == '\'' {
              incomment, linestate, cp := CHAR_LITERAL, DIRTY, cp + 1;
            } else if buf[cp] == '\"' {
              incomment, linestate, cp := STRING_LITERAL, DIRTY, cp + 1;
            } else if buf[cp] == '\n' {
              linestate, cp := START, cp + 1;
            } else if buf[cp] in {' ', '\t'} {
              cp := cp + 1;
            } else {
              return cp;
            }
          case CXX_COMMENT =>
            if buf[cp] == '\n' { incomment, linestate := NO_COMMENT, START; }
            cp := cp + 1;
          case CHAR_LITERAL | STRING_LITERAL =>
            if buf[cp] == (if incomment.CHAR_LITERAL? then '\'' else '\"') {
              incomment, cp := NO_COMMENT, cp + 1;
            } else if buf[cp] == '\\' {
              if cp + 1 == |buf| { cp := cp + 1; } else { cp := cp + 2; }
            } else if buf[cp] == '\n' {
              return -1;
            } else {
              cp := cp + 1;
            }
          case C_COMMENT =>
            if At3(buf, cp, '*', '\\', '\n') {
              incomment, cp := FINISHING_COMMENT, cp + 3;
            } else if At2(buf, cp, '*', '/') {
              incomment, cp := NO_COMMENT, cp + 2;
            } else {
              cp := cp + 1;
            }
          case STARTING_COMMENT =>
            if buf[cp] == '*' {
              incomment, cp := C_COMMENT, cp + 1;
            } else if buf[cp] == '/' {
              incomment, cp := CXX_COMMENT, cp + 1;
            } else {
              incomment, linestate := NO_COMMENT, DIRTY;
            }
          case FINISHING_COMMENT =>
            if buf[cp] == '/' {
              incomment, cp := NO_COMMENT, cp + 1;
            } else {
              incomment := C_COMMENT;
            }
        }
      }
      return cp;
    }
  }

  /** A character at which the scan stops: not blank, and not the start of a comment, a
      literal or a spliced line. */
  predicate Significant(buf: string, cp: nat) {
    && cp < |buf|
    && buf[cp] !in {' ', '\t', '\n', '\'', '\"'}
    && !AtSplice(buf, cp) && !At2(buf, cp, '/', '*') && !At2(buf, cp, '/', '/') && !At3(buf, cp, '/', '\\', '\n')
  }

  /** The scan never passes the terminator, and stops before it only outside comments and
      literals, at a significant character. */
  lemma {:induction false} StopsAtSignificant(buf: string, cp: nat, st: Comment, ls: LineState)
    requires cp <= |buf|
    ensures match Skip(buf, cp, st, ls)
            case Skipped(end, st', _) => cp <= end <= |buf| && (end < |buf| ==> st'.NO_COMMENT? && Significant(buf, end))
            case Failed => true
    decreases Fuel(buf, cp, st)
  {
    if cp < |buf| {
      match TurnFor(buf, cp, st, ls)
      case On(cp', st', ls') => StopsAtSignificant(buf, cp', st', ls');
      case _ =>
    }
  }

  // The reference: phase 2, then phase 3

  function Spliced(s: string): string {
    if s == [] then [] else if AtSplice(s, 0) then Spliced(s[2..]) else [s[0]] + Spliced(s[1..])
  }

  datatype Phase3 = Code | Slash | LineComment | Block | BlockStar | CharLit | CharEsc | StringLit | StringEsc | Broken

  function Read(p: Phase3, c: char): Phase3 {
    match p
    case Code => if c == '/' then Slash else if c == '\'' then CharLit else if c == '\"' then StringLit else Code
    case Slash =>
      if c == '*' then Block else if c == '/' then LineComment
      else if c == '\'' then CharLit else if c == '\"' then StringLit else Code
    case LineComment => if c == '\n' then Code else LineComment
    case Block => if c == '*' then BlockStar else Block
    case BlockStar => if c == '/' then Code else if c == '*' then BlockStar else Block
    case CharLit => if c == '\'' then Code else if c == '\\' then CharEsc else if c == '\n' then Broken else CharLit
    case CharEsc => CharLit
    case StringLit => if c == '\"' then Code else if c == '\\' then StringEsc else if c == '\n' then Broken else StringLit
    case StringEsc => StringLit
    case Broken => Broken
  }

  function ReadAll(p: Phase3, s: string): Phase3
    decreases |s|
  {
    if s == [] then p else ReadAll(Read(p, s[0]), s[1..])
  }

  /** The state that has to be kept from one buffer to the next. */
  datatype Kind = Outside | InLine | InBlock | InChar | InString | Bad

  function KindOf(p: Phase3): Kind {
    match p
    case Code | Slash => Outside
    case LineComment => InLine
    case Block | BlockStar => InBlock
    case CharLit | CharEsc => InChar
    case StringLit | StringEsc => InString
    case Broken => Bad
  }

  function Image(st: Comment): Phase3 {
    match st
    case NO_COMMENT => Code
    case C_COMMENT => Block
    case CXX_COMMENT => LineComment
    case STARTING_COMMENT => Slash
    case FINISHING_COMMENT => BlockStar
    case CHAR_LITERAL => CharLit
    case STRING_LITERAL => StringLit
  }

  /** getline's walk over a whole buffer: skipcomment, past the character it stopped at, and
      again, to the terminator. */
  datatype Scan = Ends(st: Comment) | Error

  function ScanAll(buf: string, cp: nat, st: Comment, ls: LineState): Scan
    requires cp <= |buf|
    decreases Fuel(buf, cp, st)
  {
    if cp == |buf| then Ends(st) else
    match TurnFor(buf, cp, st, ls)
    case On(cp', st', ls') => ScanAll(buf, cp', st', ls')
    case Stop => ScanAll(buf, cp + 1, st, ls)
    case Unterminated => Error
  }

  /** The walk is skipcomment repeated. */
  lemma {:induction false} ScanIsRepeatedSkip(buf: string, cp: nat, st: Comment, ls: LineState)
    requires cp <= |buf|
    ensures ScanAll(buf, cp, st, ls) ==
            match Skip(buf, cp, st, ls)
            case Failed => Error
            case Skipped(end, st', ls') =>
              if end >= |buf| then Ends(st') else ScanAll(buf, end + 1, st', ls')
    decreases Fuel(buf, cp, st)
  {
    if cp < |buf| {
      match TurnFor(buf, cp, st, ls)
      case On(cp', st', ls') => ScanIsRepeatedSkip(buf, cp', st', ls');
      case _ =>
    }
  }

  predicate EscapedSplice(s: string, k: nat) {
    At3(s, k, '\\', '\\', '\n')
  }

  /** The reference state after the rest of the buffer, and its kind. */
  ghost function After(buf: string, cp: nat, p: Phase3): Phase3
    requires cp <= |buf|
  {
    ReadAll(p, Spliced(buf[cp..]))
  }

  ghost function Rest(buf: string, cp: nat, p: Phase3): Kind
    requires cp <= |buf|
  {
    KindOf(After(buf, cp, p))
  }

  predicate InLiteral(p: Phase3) {
    p.CharLit? || p.StringLit?
  }

  /** A backslash before a spliced line is met at `k`, inside a literal. */
  ghost predicate SpliceEscapedAt(buf: string, cp: nat, p: Phase3, k: nat) {
    cp <= k && EscapedSplice(buf, k) && InLiteral(ReadAll(p, Spliced(buf[cp..k])))
  }

  ghost predicate SpliceEscaped(buf: string, cp: nat, p: Phase3) {
    exists k: nat :: SpliceEscapedAt(buf, cp, p, k)
  }

  predicate EndsLine(buf: string) {
    buf != [] && buf[|buf| - 1] == '\n'
  }

  /** Reading from `cp` in `p` and from `cp'` in `p'` comes to the same. Where the buffer does
      not end a line, a state that waits for a second character may be forgotten. */
  ghost predicate SameFate(buf: string, cp: nat, p: Phase3, cp': nat, p': Phase3)
    requires cp <= |buf| && cp' <= |buf|
  {
    && Rest(buf, cp, p) == Rest(buf, cp', p')
    && (EndsLine(buf) ==> After(buf, cp, p) == After(buf, cp', p'))
    && (SpliceEscaped(buf, cp, p) <==> SpliceEscaped(buf, cp', p'))
  }

  /** Reading one character, with the text cut off at `k`. */
  lemma OneStep(buf: string, cp: nat, k: nat, p: Phase3)
    requires cp < k <= |buf|
    ensures At2(buf, cp, '\\', '\n') && cp + 2 <= k ==>
              ReadAll(p, Spliced(buf[cp..k])) == ReadAll(p, Spliced(buf[cp + 2..k]))
    ensures !AtSplice(buf, cp) ==>
              ReadAll(p, Spliced(buf[cp..k])) == ReadAll(Read(p, buf[cp]), Spliced(buf[cp + 1..k]))
  {
    var s := buf[cp..k];
    if AtSplice(buf, cp) && cp + 2 <= k {
      assert s[2..] == buf[cp + 2..k];
    } else if !AtSplice(buf, cp) {
      assert s[1..] == buf[cp + 1..k];
      var t := Spliced(s);
      assert t[1..] == Spliced(s[1..]);
    }
  }

  /** An escaped splice further on is one seen from here, and the other way round. */
  lemma EscapeStep(buf: string, cp: nat, p: Phase3, k: nat)
    requires cp < |buf|
    ensures AtSplice(buf, cp) ==> (SpliceEscapedAt(buf, cp, p, k) <==> SpliceEscapedAt(buf, cp + 2, p, k))
    ensures !AtSplice(buf, cp) && !(EscapedSplice(buf, cp) && InLiteral(p)) ==>
              (SpliceEscapedAt(buf, cp, p, k) <==> SpliceEscapedAt(buf, cp + 1, Read(p, buf[cp]), k))
  {
    if k == cp {
      assert Spliced(buf[cp..k]) == [];
    } else if cp < k <= |buf| {
      OneStep(buf, cp, k, p);
    }
  }

  lemma EscapesStep(buf: string, cp: nat, p: Phase3)
    requires cp < |buf|
    ensures AtSplice(buf, cp) ==> (SpliceEscaped(buf, cp, p) <==> SpliceEscaped(buf, cp + 2, p))
    ensures !AtSplice(buf, cp) && !(EscapedSplice(buf, cp) && InLiteral(p)) ==>
              (SpliceEscaped(buf, cp, p) <==> SpliceEscaped(buf, cp + 1, Read(p, buf[cp])))
    ensures EscapedSplice(buf, cp) && InLiteral(p) ==> SpliceEscaped(buf, cp, p)
  {
    hide SpliceEscapedAt, Read;
    var cp', p' := if AtSplice(buf, cp) then cp + 2 else cp + 1, if AtSplice(buf, cp) then p else Read(p, buf[cp]);
    if EscapedSplice(buf, cp) && InLiteral(p) {
      EscapedHere(buf, cp, p);
    } else {
      if SpliceEscaped(buf, cp, p) {
        var k: nat :| SpliceEscapedAt(buf, cp, p, k);
        EscapeStep(buf, cp, p, k);
        assert SpliceEscapedAt(buf, cp', p', k);
      }
      if SpliceEscaped(buf, cp', p') {
        var k: nat :| SpliceEscapedAt(buf, cp', p', k);
        EscapeStep(buf, cp, p, k);
        assert SpliceEscapedAt(buf, cp, p, k);
      }
    }
  }

  lemma EscapedHere(buf: string, cp: nat, p: Phase3)
    requires EscapedSplice(buf, cp) && InLiteral(p)
    ensures SpliceEscapedAt(buf, cp, p, cp)
  {
    assert Spliced(buf[cp..cp]) == [];
  }

  lemma OneChar(buf: string, cp: nat, p: Phase3)
    requires cp < |buf|
    ensures AtSplice(buf, cp) ==> SameFate(buf, cp, p, cp + 2, p)
    ensures !AtSplice(buf, cp) && !(EscapedSplice(buf, cp) && InLiteral(p)) ==>
              SameFate(buf, cp, p, cp + 1, Read(p, buf[cp]))
    ensures EscapedSplice(buf, cp) && InLiteral(p) ==> SpliceEscaped(buf, cp, p)
  {
    hide SpliceEscaped, Read;
    OneStep(buf, cp, |buf|, p);
    assert buf[cp..|buf|] == buf[cp..] && buf[cp + 1..|buf|] == buf[cp + 1..];
    if AtSplice(buf, cp) { assert buf[cp + 2..|buf|] == buf[cp + 2..]; }
    EscapesStep(buf, cp, p);
  }

  /** A state that only waits for a second character changes nothing when another follows, or
      none in this buffer. */
  lemma WaitingIsOver(buf: string, cp: nat)
    requires cp <= |buf| && (cp == |buf| ==> !EndsLine(buf))
    ensures cp == |buf| || (buf[cp] !in {'*', '/'} && !AtSplice(buf, cp)) ==> SameFate(buf, cp, Slash, cp, Code)
    ensures cp == |buf| || (buf[cp] != '/' && !AtSplice(buf, cp)) ==> SameFate(buf, cp, BlockStar, cp, Block)
    ensures cp == |buf| ==> SameFate(buf, cp, CharEsc, cp, CharLit) && SameFate(buf, cp, StringEsc, cp, StringLit)
  {
    if cp < |buf| {
      OneChar(buf, cp, Slash);
      OneChar(buf, cp, Code);
      OneChar(buf, cp, BlockStar);
      OneChar(buf, cp, Block);
    }
  }

  lemma {:induction false} BrokenStays(s: string)
    ensures ReadAll(Broken, s) == Broken
  {
    if s != [] { BrokenStays(s[1..]); }
  }

  lemma BrokenIsBad(buf: string, cp: nat)
    requires cp <= |buf|
    ensures Rest(buf, cp, Broken) == Bad
  {
    BrokenStays(Spliced(buf[cp..]));
  }

  /** What a turn must do to the reference state. */
  ghost predicate TurnAgrees(buf: string, cp: nat, st: Comment, ls: LineState)
    requires cp < |buf|
  {
    match TurnFor(buf, cp, st, ls)
    case On(cp', st', _) =>
      || SameFate(buf, cp, Image(st), cp', Image(st'))
      || ((st.CHAR_LITERAL? || st.STRING_LITERAL?) && EscapedSplice(buf, cp) && SpliceEscaped(buf, cp, Image(st))
          && cp' == cp + 2 && st' == st)
    case Stop => st.NO_COMMENT? && SameFate(buf, cp, Image(st), cp + 1, Image(st))
    case Unterminated => Rest(buf, cp, Image(st)) == Bad
  }

  lemma CodeTurn(buf: string, cp: nat, ls: LineState)
    requires cp < |buf| && !AtSplice(buf, cp)
    ensures TurnAgrees(buf, cp, NO_COMMENT, ls)
  {
    hide SameFate;
    OneChar(buf, cp, Code);
    if buf[cp] == '/' {
      if cp + 1 < |buf| { OneChar(buf, cp + 1, Slash); }
      WaitingIsOver(buf, cp + 1);
      FateJoins(buf, cp, Code, cp + 1, Slash);
    }
  }

  lemma BlockTurn(buf: string, cp: nat, ls: LineState)
    requires cp < |buf| && !AtSplice(buf, cp)
    ensures TurnAgrees(buf, cp, C_COMMENT, ls)
  {
    hide SameFate;
    OneChar(buf, cp, Block);
    if buf[cp] == '*' {
      if cp + 1 < |buf| { OneChar(buf, cp + 1, BlockStar); }
      WaitingIsOver(buf, cp + 1);
      FateJoins(buf, cp, Block, cp + 1, BlockStar);
    }
  }

  /** Fates are passed on. */
  lemma FateJoins(buf: string, cp: nat, p: Phase3, cp': nat, p': Phase3)
    requires cp <= |buf| && cp' <= |buf| && SameFate(buf, cp, p, cp', p')
    ensures forall c: nat, q :: c <= |buf| && SameFate(buf, cp', p', c, q) ==> SameFate(buf, cp, p, c, q)
  {
  }

  lemma LiteralTurn(buf: string, cp: nat, st: Comment, ls: LineState)
    requires cp < |buf| && !AtSplice(buf, cp) && (st.CHAR_LITERAL? || st.STRING_LITERAL?)
    ensures TurnAgrees(buf, cp, st, ls)
  {
    hide After, SpliceEscaped;
    OneChar(buf, cp, Image(st));
    if buf[cp] == '\\' {
      var q := Read(Image(st), '\\');
      if cp + 1 == |buf| {
        WaitingIsOver(buf, cp + 1);
      } else {
        OneChar(buf, cp + 1, q);
      }
    } else if buf[cp] == '\n' {
      BrokenIsBad(buf, cp + 1);
    }
  }

  lemma EveryTurnAgrees(buf: string, cp: nat, st: Comment, ls: LineState)
    requires cp < |buf|
    ensures TurnAgrees(buf, cp, st, ls)
  {
    hide After, SpliceEscaped;
    if AtSplice(buf, cp) {
      OneChar(buf, cp, Image(st));
    } else {
      match st
      case NO_COMMENT => CodeTurn(buf, cp, ls);
      case C_COMMENT => BlockTurn(buf, cp, ls);
      case CXX_COMMENT => OneChar(buf, cp, LineComment);
      case STARTING_COMMENT => OneChar(buf, cp, Slash); WaitingIsOver(buf, cp);
      case FINISHING_COMMENT => OneChar(buf, cp, BlockStar); WaitingIsOver(buf, cp);
      case CHAR_LITERAL | STRING_LITERAL => LiteralTurn(buf, cp, st, ls);
    }
  }

  /** What a scan must come to: its final state is that of the reference; it fails exactly
      when the reference finds an unterminated literal, or meets a backslash before a spliced
      line inside a literal. */
  ghost predicate Agrees(buf: string, cp: nat, p: Phase3, r: Scan)
    requires cp <= |buf|
  {
    && (r.Ends? ==> Rest(buf, cp, p) == KindOf(Image(r.st)))
    && (r.Ends? && (EndsLine(buf) || cp == |buf|) ==> After(buf, cp, p) == Image(r.st))
    && (r.Error? <==> Rest(buf, cp, p) == Bad || SpliceEscaped(buf, cp, p))
  }

  lemma AfterEscape(buf: string, cp: nat, st: Comment, ls: LineState)
    requires EscapedSplice(buf, cp) && (st.CHAR_LITERAL? || st.STRING_LITERAL?)
    ensures TurnFor(buf, cp + 2, st, ls) == Unterminated
  {
  }

  lemma NothingLeft(buf: string, st: Comment)
    ensures Agrees(buf, |buf|, Image(st), Ends(st))
  {
    assert Spliced(buf[|buf|..]) == [];
  }

  lemma TurnGoesOn(buf: string, cp: nat, st: Comment, ls: LineState)
    requires cp < |buf|
    ensures var t := TurnFor(buf, cp, st, ls);
            t.On? ==> t.cp <= |buf| && Fuel(buf, t.cp, t.st) < Fuel(buf, cp, st)
  {
  }

  /** On every buffer, from every state. */
  lemma {:induction false} ScanAgrees(buf: string, cp: nat, st: Comment, ls: LineState)
    requires cp <= |buf|
    ensures Agrees(buf, cp, Image(st), ScanAll(buf, cp, st, ls))
    decreases Fuel(buf, cp, st)
  {
    hide TurnFor, ReadAll, Spliced, SpliceEscaped;
    if cp < |buf| {
      EveryTurnAgrees(buf, cp, st, ls);
      TurnGoesOn(buf, cp, st, ls);
      match TurnFor(buf, cp, st, ls)
      case On(cp', st', ls') =>
        if SameFate(buf, cp, Image(st), cp', Image(st')) {
          ScanAgrees(buf, cp', st', ls');
        } else {
          AfterEscape(buf, cp, st, ls');
        }
      case Stop => ScanAgrees(buf, cp + 1, st, ls);
      case Unterminated =>
    } else {
      NothingLeft(buf, st);
    }
  }

  lemma ReferenceAccepts(buf: string)
    requires buf == "\"\\\\\nn\""
    ensures ReadAll(Code, Spliced(buf)) == Code
  {
    hide ReadAll;
    assert buf[0..6] == buf;
    OneStep(buf, 0, 6, Code);
    OneStep(buf, 1, 6, StringLit);
    OneStep(buf, 2, 6, StringEsc);
    OneStep(buf, 4, 6, StringEsc);
    OneStep(buf, 5, 6, StringLit);
    NothingRead(buf[6..6]);
  }

  lemma NothingRead(s: string)
    requires s == []
    ensures forall p :: ReadAll(p, Spliced(s)) == p
  {
  }

  /** The exception is real: a string literal that C accepts and unifdef refuses. */
  lemma EscapedSpliceRefused()
    ensures var buf := "\"\\\\\nn\"";
            ScanAll(buf, 0, NO_COMMENT, START) == Error && KindOf(ReadAll(Code, Spliced(buf))) == Outside
  {
    var buf := "\"\\\\\nn\"";
    assert |buf| == 6 && buf[0] == '\"' && buf[1] == '\\' && buf[2] == '\\' && buf[3] == '\n';
    assert TurnFor(buf, 0, NO_COMMENT, START) == On(1, STRING_LITERAL, DIRTY);
    assert TurnFor(buf, 1, STRING_LITERAL, DIRTY) == On(3, STRING_LITERAL, DIRTY);
    assert TurnFor(buf, 3, STRING_LITERAL, DIRTY) == Unterminated;
    ReferenceAccepts(buf);
  }

  // A whole file, line by line

  /** getline called for every line; `ls` gives the line state each call starts from. */
  function ScanFile(lines: seq<string>, st: Comment, ls: nat -> LineState): Scan {
    if lines == [] then Ends(st) else
    match ScanFile(lines[..|lines| - 1], st, ls)
    case Ends(st') => ScanAll(lines[|lines| - 1], 0, st', ls(|lines| - 1))
    case Error => Error
  }

  function Join(lines: seq<string>): string {
    if lines == [] then [] else Join(lines[..|lines| - 1]) + lines[|lines| - 1]
  }

  /** Nothing after the text can make its last character part of a splice. */
  predicate NoBackslashAtEnd(a: string) {
    a == [] || a[|a| - 1] != '\\'
  }

  lemma {:induction false} SplicedJoin(a: string, b: string)
    requires NoBackslashAtEnd(a)
    ensures Spliced(a + b) == Spliced(a) + Spliced(b)
  {
    if a == [] {
      assert a + b == b;
    } else {
      var n := if AtSplice(a, 0) then 2 else 1;
      assert AtSplice(a, 0) <==> AtSplice(a + b, 0);
      SplicedJoin(a[n..], b);
      assert (a + b)[n..] == a[n..] + b;
    }
  }

  lemma {:induction false} ReadJoin(p: Phase3, s: string, t: string)
    ensures ReadAll(p, s + t) == ReadAll(ReadAll(p, s), t)
    decreases |s|
  {
    if s == [] {
      assert s + t == t;
    } else {
      ReadJoin(Read(p, s[0]), s[1..], t);
      assert (s + t)[1..] == s[1..] + t;
    }
  }

  lemma JoinReads(a: string, b: string, p: Phase3)
    requires NoBackslashAtEnd(a)
    ensures After(a + b, 0, p) == After(b, 0, After(a, 0, p))
  {
    assert (a + b)[0..] == a + b && a[0..] == a && b[0..] == b;
    SplicedJoin(a, b);
    ReadJoin(p, Spliced(a), Spliced(b));
  }

  /** An escaped splice in the whole is one in the first part or one in the second. */
  lemma JoinEscapes(a: string, b: string, p: Phase3)
    requires NoBackslashAtEnd(a)
    ensures SpliceEscaped(a + b, 0, p) <==> SpliceEscaped(a, 0, p) || SpliceEscaped(b, 0, After(a, 0, p))
  {
    var q := After(a, 0, p);
    if SpliceEscaped(a + b, 0, p) {
      var k: nat :| SpliceEscapedAt(a + b, 0, p, k);
      if k < |a| {
        assert (a + b)[0..k] == a[0..k];
        assert SpliceEscapedAt(a, 0, p, k);
      } else {
        EscapeShifts(a, b, p, k - |a|);
        assert SpliceEscapedAt(b, 0, q, k - |a|);
      }
    }
    if SpliceEscaped(a, 0, p) {
      var k: nat :| SpliceEscapedAt(a, 0, p, k);
      assert (a + b)[0..k] == a[0..k];
      assert SpliceEscapedAt(a + b, 0, p, k);
    }
    if SpliceEscaped(b, 0, q) {
      var k: nat :| SpliceEscapedAt(b, 0, q, k);
      EscapeShifts(a, b, p, k);
      assert SpliceEscapedAt(a + b, 0, p, k + |a|);
    }
  }

  lemma EscapeShifts(a: string, b: string, p: Phase3, k: nat)
    requires NoBackslashAtEnd(a)
    ensures SpliceEscapedAt(a + b, 0, p, |a| + k) <==> SpliceEscapedAt(b, 0, After(a, 0, p), k)
  {
    if k <= |b| {
      JoinReads(a, b[0..k], p);
      assert (a + b)[0..|a| + k] == a + b[0..k];
      assert (a + b[0..k])[0..] == a + b[0..k] && b[0..k][0..] == b[0..k];
    }
  }

  predicate Waiting(p: Phase3) {
    p.Slash? || p.BlockStar? || p.CharEsc? || p.StringEsc?
  }

  /** The text may be cut here: a line ends, or no second character is waited for. */
  ghost predicate Settled(text: string, p: Phase3) {
    text == [] || EndsLine(text) || (NoBackslashAtEnd(text) && !Waiting(After(text, 0, p)))
  }

  /** The pieces fgets hands over, each cut off where the text is settled. Whole lines always
      are; a line longer than the input buffer need not be. */
  ghost predicate Pieces(pieces: seq<string>, p: Phase3) {
    && (forall k :: 0 <= k < |pieces| ==> pieces[k] != [])
    && (forall k :: 0 <= k < |pieces| ==> Settled(Join(pieces[..k]), p))
  }

  /** The scanner itself waits for a second character only over the end of a line. */
  lemma {:induction false} EndsWaiting(buf: string, cp: nat, st: Comment, ls: LineState)
    requires cp < |buf| && ScanAll(buf, cp, st, ls).Ends? && !EndsLine(buf)
    ensures !Waiting(Image(ScanAll(buf, cp, st, ls).st))
    decreases Fuel(buf, cp, st)
  {
    WaitingTurn(buf, cp, st, ls);
    TurnGoesOn(buf, cp, st, ls);
    hide TurnFor;
    match TurnFor(buf, cp, st, ls)
    case On(cp', st', ls') => if cp' < |buf| { EndsWaiting(buf, cp', st', ls'); }
    case Stop => if cp + 1 < |buf| { EndsWaiting(buf, cp + 1, st, ls); }
    case Unterminated =>
  }

  lemma WaitingTurn(buf: string, cp: nat, st: Comment, ls: LineState)
    requires cp < |buf| && !EndsLine(buf)
    ensures match TurnFor(buf, cp, st, ls)
            case On(cp', st', _) => cp' == |buf| ==> !Waiting(Image(st'))
            case Stop => !Waiting(Image(st))
            case Unterminated => true
  {
  }

  lemma PiecesPrefix(pieces: seq<string>, n: nat, p: Phase3)
    requires Pieces(pieces, p) && n <= |pieces|
    ensures Pieces(pieces[..n], p)
  {
    forall k | 0 <= k < n ensures Settled(Join(pieces[..n][..k]), p) { assert pieces[..n][..k] == pieces[..k]; }
  }

  /** Where the text may be cut, the scan is in exactly the state of the reference. */
  lemma ExactAtCut(text: string, p: Phase3, st: Comment)
    requires Agrees(text, 0, p, Ends(st)) && Settled(text, p)
    requires text == [] || EndsLine(text) || !Waiting(Image(st))
    ensures After(text, 0, p) == Image(st)
  {
    hide After;
  }

  lemma LastPiece(pieces: seq<string>, st: Comment, ls: nat -> LineState)
    requires pieces != [] && pieces[|pieces| - 1] != [] && ScanFile(pieces, st, ls).Ends?
    ensures Join(pieces) != []
    ensures EndsLine(Join(pieces)) <==> EndsLine(pieces[|pieces| - 1])
    ensures EndsLine(Join(pieces)) || !Waiting(Image(ScanFile(pieces, st, ls).st))
  {
    var n := |pieces| - 1;
    var before := ScanFile(pieces[..n], st, ls);
    assert before.Ends?;
    if !EndsLine(pieces[n]) { EndsWaiting(pieces[n], 0, before.st, ls(n)); }
  }

  /** Reading a file piece by piece, with only the comment state carried over, agrees with
      splicing and reading the whole text: same kind of state at the end, and an error exactly
      for an unterminated literal or an escaped splice inside one. */
  lemma {:induction false} FileAgrees(pieces: seq<string>, st: Comment, ls: nat -> LineState)
    requires Pieces(pieces, Image(st))
    ensures Agrees(Join(pieces), 0, Image(st), ScanFile(pieces, st, ls))
  {
    hide ReadAll, Spliced, SpliceEscaped, ScanAll;
    if pieces == [] {
      NothingLeft([], st);
    } else {
      var n := |pieces| - 1;
      var text, piece := Join(pieces[..n]), pieces[n];
      PiecesPrefix(pieces, n, Image(st));
      FileAgrees(pieces[..n], st, ls);
      assert Settled(text, Image(st));
      JoinReads(text, piece, Image(st));
      JoinEscapes(text, piece, Image(st));
      match ScanFile(pieces[..n], st, ls)
      case Ends(st') =>
        if n > 0 { LastPiece(pieces[..n], st, ls); }
        ExactAtCut(text, Image(st), st');
        ScanAgrees(piece, 0, st', ls(n));
        EndsLineJoin(text, piece);
      case Error => BadStays(text, piece, Image(st));
    }
  }

  lemma EndsLineJoin(a: string, b: string)
    requires b != []
    ensures EndsLine(a + b) <==> EndsLine(b)
  {
  }

  /** Whole lines are such pieces. */
  lemma LinesArePieces(lines: seq<string>, p: Phase3)
    requires forall k :: 0 <= k < |lines| ==> lines[k] != [] && (k < |lines| - 1 ==> EndsLine(lines[k]))
    ensures Pieces(lines, p)
  {
    forall k | 0 <= k < |lines| ensures Settled(Join(lines[..k]), p) {
      if k > 0 {
        assert lines[..k][k - 1] == lines[k - 1];
        EndsLineJoin(Join(lines[..k][..k - 1]), lines[k - 1]);
      }
    }
  }

  /** A cut while a second character is waited for: the comment that begins there is missed. */
  lemma CutApart(ls: nat -> LineState)
    ensures ScanFile(["/", "*"], NO_COMMENT, ls) == Ends(NO_COMMENT)
    ensures KindOf(ReadAll(Code, Spliced(Join(["/", "*"])))) == InBlock
    ensures !Pieces(["/", "*"], Code)
  {
    var pieces := ["/", "*"];
    assert pieces[..1] == ["/"] && pieces[..1][..0] == [];
    assert ScanAll("/", 0, NO_COMMENT, ls(0)) == Ends(NO_COMMENT);
    assert ScanAll("*", 0, NO_COMMENT, ls(1)) == Ends(NO_COMMENT);
    assert Join(pieces[..1]) == "/" && Join(pieces) == "/*";
    var t := "/*";
    assert t[0..2] == t;
    OneStep(t, 0, 2, Code);
    OneStep(t, 1, 2, Slash);
    NothingRead(t[2..2]);
    var u := "/";
    assert u[0..1] == u && u[0..] == u;
    OneStep(u, 0, 1, Code);
    NothingRead(u[1..1]);
    assert After("/", 0, Code) == Slash;
    assert !Settled(Join(pieces[..1]), Code);
  }

  lemma BadStays(a: string, b: string, p: Phase3)
    requires NoBackslashAtEnd(a)
    ensures Rest(a, 0, p) == Bad ==> Rest(a + b, 0, p) == Bad
  {
    JoinReads(a, b, p);
    if Rest(a, 0, p) == Bad { BrokenStays(Spliced(b[0..])); }
  }
}
