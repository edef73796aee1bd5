/**
  Line editing: scan codes typed while a terminal is viewed edit that terminal's line, Enter
  completes it, and a reader copies the completed line out of the buffer it was typed into.
 */
module Keyboard {

  const KBD_BUF_SIZE := 128
  const SCAN_CODE_SET_SIZE := 59
  const NORMAL: string := "001234567890-=\U{8}\tqwertyuiop[]\n0asdfghjkl;'`0\\zxcvbnm,./0*0 0"
  const SHIFTED: string := "00!@#$%^&*()_+\U{8}\tQWERTYUIOP{}\n0ASDFGHJKL:\"~0|ZXCVBNM<>?0*0 0"

  const BACKSPACE_PRESSED := 0x0E
  const TAB_PRESSED := 0x0F
  const CTRL_PRESSED := 0x1D
  const RIGHT_CTRL_PRESSED := 0xED
  const CTRL_RELEASED := 0x9D
  const LEFT_SHIFT_PRESSED := 0x2A
  const LEFT_SHIFT_RELEASED := 0xAA
  const RIGHT_SHIFT_PRESSED := 0x36
  const RIGHT_SHIFT_RELEASED := 0xB6
  const ALT_PRESSED := 0x38
  const ALT_RELEASED := 0xB8
  const CAPSLOCK_PRESSED := 0x3A
  const F1_PRESSED := 0x3B

  // Releases of backspace, tab, caps lock and the function keys.
  const IGNORED := {0x8E, 0x8F, 0xBA, 0xBB, 0xBC, 0xBD}

  // ----- what a scan code means

  datatype Mode = Mode(leftShift: bool, rightShift: bool, ctrl: bool, caps: bool, alt: bool, viewing: int)

  datatype Edit = Type(c: char) | Rub | Enter

  datatype Action = Nothing | Edits(edit: Edit) | Views(t: int)

  predicate IsLetter(code: int) {
    0x10 <= code <= 0x19 || 0x1E <= code <= 0x26 || 0x2C <= code <= 0x32
  }

  predicate IsModifier(code: int) {
    code in {CTRL_PRESSED, RIGHT_CTRL_PRESSED, CTRL_RELEASED, LEFT_SHIFT_PRESSED, LEFT_SHIFT_RELEASED,
             RIGHT_SHIFT_PRESSED, RIGHT_SHIFT_RELEASED, CAPSLOCK_PRESSED, ALT_PRESSED, ALT_RELEASED}
  }

  predicate IsSpecial(code: int) {
    || IsModifier(code) || code == BACKSPACE_PRESSED || code == TAB_PRESSED
    || F1_PRESSED <= code < F1_PRESSED + 3
    || code in IGNORED
  }

  predicate IsNormal(code: int) {
    2 <= code < SCAN_CODE_SET_SIZE && !IsSpecial(code)
  }

  lemma TableSize()
    ensures |NORMAL| == |SHIFTED| == SCAN_CODE_SET_SIZE
  {
  }

  function KeyChar(m: Mode, code: int): char
    requires 0 <= code < SCAN_CODE_SET_SIZE
  {
    TableSize();
    var shift := m.leftShift || m.rightShift;
    if (if IsLetter(code) then shift != m.caps else shift) then SHIFTED[code] else NORMAL[code]
  }

  /** The L key, which with Ctrl clears the screen. */
  predicate IsClear(m: Mode, code: int)
    requires 0 <= code < SCAN_CODE_SET_SIZE
  {
    TableSize();
    m.ctrl && NORMAL[code] == 'l'
  }

  function Decode(m: Mode, code: int): Action {
    if code == BACKSPACE_PRESSED then Edits(Rub)
    else if F1_PRESSED <= code < F1_PRESSED + 3 then (if m.alt then Views(code - F1_PRESSED) else Nothing)
    else if IsNormal(code) && !IsClear(m, code) then
      Edits(if KeyChar(m, code) == '\n' then Enter else Type(KeyChar(m, code)))
    else Nothing
  }

  function FlagSet(m: Mode, code: int): Mode {
    if code == CTRL_PRESSED || code == RIGHT_CTRL_PRESSED then m.(ctrl := true)
    else if code == CTRL_RELEASED then m.(ctrl := false)
    else if code == LEFT_SHIFT_PRESSED then m.(leftShift := true)
    else if code == LEFT_SHIFT_RELEASED then m.(leftShift := false)
    else if code == RIGHT_SHIFT_PRESSED then m.(rightShift := true)
    else if code == RIGHT_SHIFT_RELEASED then m.(rightShift := false)
    else if code == CAPSLOCK_PRESSED then m.(caps := !m.caps)
    else if code == ALT_PRESSED then m.(alt := true)
    else if code == ALT_RELEASED then m.(alt := false)
    else m
  }

  function NextMode(m: Mode, code: int): Mode {
    if IsModifier(code) then FlagSet(m, code)
    else if IsNormal(code) && IsClear(m, code) then m.(ctrl := false)
    else if Decode(m, code).Views? then m.(viewing := Decode(m, code).t)
    else m
  }

  /** What the modifier keys do, by their codes: a press sets, its release undoes, caps lock turns over,
      and with Alt held a function key views its terminal. */
  lemma ModeKeys(m: Mode, code: int)
    ensures NextMode(m, 0x2A) == m.(leftShift := true) && NextMode(m, 0xAA) == m.(leftShift := false)
    ensures NextMode(m, 0x36) == m.(rightShift := true) && NextMode(m, 0xB6) == m.(rightShift := false)
    ensures NextMode(m, 0x1D) == NextMode(m, 0xED) == m.(ctrl := true) && NextMode(m, 0x9D) == m.(ctrl := false)
    ensures NextMode(m, 0x38) == m.(alt := true) && NextMode(m, 0xB8) == m.(alt := false)
    ensures NextMode(m, 0x3A) == m.(caps := !m.caps)
    ensures 0x3B <= code <= 0x3D ==> NextMode(m, code) == if m.alt then m.(viewing := code - 0x3B) else m
    ensures code in {0x0E, 0x1C} ==> NextMode(m, code) == m
  {
    TableSize();
  }

  /** The letter keys, by their codes. */
  predicate LetterKey(code: int) {
    0x10 <= code <= 0x19 || 0x1E <= code <= 0x26 || 0x2C <= code <= 0x32
  }

  /** A letter key gives a small letter, or the capital 32 below it when exactly one of shift and caps
      lock is on; for the other keys caps lock does not matter. */
  lemma LetterKeys(m: Mode, code: int)
    requires 0 <= code < SCAN_CODE_SET_SIZE
    ensures |NORMAL| == |SHIFTED| == SCAN_CODE_SET_SIZE
    ensures LetterKey(code) ==>
              && 'a' <= NORMAL[code] <= 'z'
              && KeyChar(m, code) as int ==
                   NORMAL[code] as int - if (m.leftShift || m.rightShift) != m.caps then 32 else 0
    ensures !LetterKey(code) ==> KeyChar(m, code) == if m.leftShift || m.rightShift then SHIFTED[code] else NORMAL[code]
  {
    TableSize();
  }

  /** Which keys edit the line, and how. */
  lemma KeyEdits(m: Mode, code: int)
    ensures Decode(m, 0x0E) == Edits(Rub) && Decode(m, 0x1C) == Edits(Enter)
    ensures LetterKey(code) && !(m.ctrl && code == 0x26) ==>
              Decode(m, code) == Edits(Type(KeyChar(m, code))) && NextMode(m, code) == m
    ensures LetterKey(0x26) && NORMAL[0x26] == 'l'
    ensures m.ctrl ==> Decode(m, 0x26) == Nothing && NextMode(m, 0x26) == m.(ctrl := false)
    ensures code == 0x0F || code < 2 || code > 0x3D ==> Decode(m, code) == Nothing
  {
    TableSize();
    if LetterKey(code) { LetterKeys(m, code); }
  }

  const START := Mode(false, false, false, false, false, 0)

  ghost function ModeAfter(codes: seq<int>): (m: Mode)
    ensures 0 <= m.viewing < 3
  {
    if codes == [] then START else NextMode(ModeAfter(codes[..|codes| - 1]), codes[|codes| - 1])
  }

  /** The edits among the scan codes that came while terminal `t` was viewed. */
  ghost function EditsIn(codes: seq<int>, t: int): seq<Edit> {
    if codes == [] then []
    else
      var before := codes[..|codes| - 1];
      var m := ModeAfter(before);
      var action := Decode(m, codes[|codes| - 1]);
      EditsIn(before, t) + if m.viewing == t && action.Edits? then [action.edit] else []
  }

  // ----- what the edits come to

  datatype Entered = None | Line(line: string)

  // The line being typed and, until it is typed over, the line last entered.
  datatype Input = Input(line: string, entered: Entered)

  function Apply(input: Input, e: Edit): Input {
    match e
    case Type(c) => if |input.line| < KBD_BUF_SIZE - 1 then Input(input.line + [c], None) else input
    case Rub => if input.line == [] then input else Input(input.line[..|input.line| - 1], None)
    case Enter => Input([], Line(input.line))
  }

  ghost function Fold(edits: seq<Edit>): (input: Input)
    ensures |input.line| < KBD_BUF_SIZE
    ensures input.entered.Line? ==> |input.entered.line| < KBD_BUF_SIZE && input.line == []
  {
    if edits == [] then Input([], None) else Apply(Fold(edits[..|edits| - 1]), edits[|edits| - 1])
  }

  /** Typing appends below 127 characters, backspace takes the last one back, and Enter completes. */
  lemma LineEdits(es: seq<Edit>, c: char)
    ensures var line := Fold(es).line;
            && (|line| < 127 ==> Fold(es + [Type(c)]).line == line + [c] && Fold(es + [Type(c), Rub]).line == line)
            && (|line| == 127 ==> Fold(es + [Type(c)]) == Fold(es))
            && Fold(es + [Rub]).line == (if line == [] then [] else line[..|line| - 1])
            && (line == [] ==> Fold(es + [Rub]) == Fold(es))
            && Fold(es + [Enter]).line == [] && Fold(es + [Enter]).entered == Line(line)
  {
    hide Fold;
    EditLast(es, Type(c));
    EditLast(es + [Type(c)], Rub);
    EditLast(es, Rub);
    EditLast(es, Enter);
    assert es + [Type(c)] + [Rub] == es + [Type(c), Rub];
    FoldBound(es);
  }

  lemma FoldBound(es: seq<Edit>)
    ensures |Fold(es).line| <= 127
  {
  }

  lemma EditLast(es: seq<Edit>, e: Edit)
    ensures Fold(es + [e]) == Apply(Fold(es), e)
  {
    assert (es + [e])[..|es|] == es;
  }

  ghost predicate OneLine(s: string) {
    forall i :: 0 <= i < |s| ==> s[i] != '\n'
  }

  ghost predicate OneLiners(input: Input) {
    OneLine(input.line) && (input.entered.Line? ==> OneLine(input.entered.line))
  }

  lemma ApplyKeeps(input: Input, e: Edit)
    requires OneLiners(input) && (e.Type? ==> e.c != '\n')
    ensures OneLiners(Apply(input, e))
  {
  }

  lemma NoNewlineTyped(m: Mode, code: int)
    ensures Decode(m, code).Edits? && Decode(m, code).edit.Type? ==> Decode(m, code).edit.c != '\n'
  {
  }

  /** No line, pending or entered, has a newline in it. */
  lemma {:induction false} LinesAreLines(codes: seq<int>, t: int)
    ensures OneLiners(Fold(EditsIn(codes, t)))
  {
    hide Decode, NextMode;
    if codes != [] {
      var before, code := codes[..|codes| - 1], codes[|codes| - 1];
      LinesAreLines(before, t);
      FoldMore(before, code, t);
      assert before + [code] == codes;
      var action := Decode(ModeAfter(before), code);
      NoNewlineTyped(ModeAfter(before), code);
      if action.Edits? { ApplyKeeps(Fold(EditsIn(before, t)), action.edit); }
    }
  }

  /** One more scan code edits the line of the viewed terminal and of no other. */
  lemma FoldMore(codes: seq<int>, code: int, t: int)
    ensures ModeAfter(codes + [code]) == NextMode(ModeAfter(codes), code)
    ensures var m := ModeAfter(codes);
            Fold(EditsIn(codes + [code], t)) ==
              if m.viewing == t && Decode(m, code).Edits? then Apply(Fold(EditsIn(codes, t)), Decode(m, code).edit)
              else Fold(EditsIn(codes, t))
  {
    var more := codes + [code];
    assert more[..|more| - 1] == codes && more[|more| - 1] == code;
    var m := ModeAfter(codes);
    if m.viewing == t && Decode(m, code).Edits? {
      var edits := EditsIn(codes, t) + [Decode(m, code).edit];
      assert edits[..|edits| - 1] == EditsIn(codes, t);
    } else {
      assert EditsIn(more, t) == EditsIn(codes, t);
    }
  }

  /** What a reader takes from a buffer: up to the first newline, and no more than it asks for. */
  function ReadOut(s: string, n: nat): string
    decreases n
  {
    if n == 0 || s == [] then []
    else if s[0] == '\n' then [s[0]]
    else [s[0]] + ReadOut(s[1..], n - 1)
  }

  /** A line and its newline, cut to `n` characters. */
  function FirstOf(line: string, n: nat): string {
    var whole := line + ['\n'];
    if n < |whole| then whole[..n] else whole
  }

  /** From a buffer that begins with a line and its newline, that is the line and its newline,
      cut to what was asked for. */
  lemma {:induction false} ReadsLine(line: string, rest: string, n: nat)
    requires OneLine(line)
    ensures ReadOut(line + ['\n'] + rest, n) == FirstOf(line, n)
  {
    var whole := line + ['\n'];
    if n > 0 && line != [] {
      ReadsLine(line[1..], rest, n - 1);
      assert (whole + rest)[1..] == line[1..] + ['\n'] + rest;
    } else if n > 0 {
      assert (whole + rest)[0] == '\n';
    }
  }

  lemma ReadsEntered(all: string, line: string, n: nat)
    requires OneLine(line) && |line| < |all| && all[..|line| + 1] == line + ['\n']
    ensures ReadOut(all, n) == FirstOf(line, n)
  {
    assert all == all[..|line| + 1] + all[|line| + 1..];
    ReadsLine(line, all[|line| + 1..], n);
  }

  /** What a scan code makes of the three buffers. */
  ghost function Edited(inputs: seq<Input>, m: Mode, code: int): seq<Input>
    requires |inputs| == 3 && 0 <= m.viewing < 3
  {
    var action := Decode(m, code);
    if action.Edits? then inputs[m.viewing := Apply(inputs[m.viewing], action.edit)] else inputs
  }

  // ----- runs of keys and reads

  datatype Event = Scanned(code: int) | Taken(t: int)

  ghost function Codes(events: seq<Event>): seq<int> {
    if events == [] then []
    else
      var e := events[|events| - 1];
      Codes(events[..|events| - 1]) + if e.Scanned? then [e.code] else []
  }

  ghost function ModeOf(events: seq<Event>): (m: Mode)
    ensures 0 <= m.viewing < 3
  {
    ModeAfter(Codes(events))
  }

  /** What terminal `t`'s buffer holds after a run: reading takes nothing out. */
  ghost function InputOf(events: seq<Event>, t: int): (input: Input)
    ensures |input.line| < KBD_BUF_SIZE
    ensures input.entered.Line? ==> |input.entered.line| < KBD_BUF_SIZE && input.line == []
  {
    Fold(EditsIn(Codes(events), t))
  }

  predicate Enters(m: Mode, code: int, t: int) {
    m.viewing == t && Decode(m, code) == Edits(Enter)
  }

  /** kbd_buf_ready of terminal `t` after a run. */
  ghost predicate ReadyAfter(events: seq<Event>, t: int) {
    && events != []
    && var before := events[..|events| - 1];
       match events[|events| - 1]
       case Scanned(code) => Enters(ModeOf(before), code, t) || ReadyAfter(before, t)
       case Taken(u) => u != t && ReadyAfter(before, t)
  }

  /** Event `i` is an Enter in terminal `t`, and no read for `t` comes after it. */
  ghost predicate EnteredLast(events: seq<Event>, t: int, i: int)
    requires 0 <= i < |events|
  {
    && events[i].Scanned? && Enters(ModeOf(events[..i]), events[i].code, t)
    && forall j :: i < j < |events| ==> events[j] != Taken(t)
  }

  /** A terminal's reader may go on exactly when Enter came while it was viewed, since its last read. */
  lemma {:induction false} ReadyExactly(events: seq<Event>, t: int)
    ensures ReadyAfter(events, t) <==> exists i :: 0 <= i < |events| && EnteredLast(events, t, i)
  {
    hide ModeOf, Enters, EnteredLast;
    if events != [] {
      var n := |events| - 1;
      var before := events[..n];
      assert before + [events[n]] == events;
      ReadyExactly(before, t);
      EnteredNow(events, t);
      if ReadyAfter(before, t) && events[n] != Taken(t) {
        var i :| 0 <= i < n && EnteredLast(before, t, i);
        EnteredMore(before, events[n], t, i);
      }
      if i :| 0 <= i < n && EnteredLast(events, t, i) {
        EnteredMore(before, events[n], t, i);
      }
    }
  }

  lemma EnteredNow(events: seq<Event>, t: int)
    requires events != []
    ensures var n := |events| - 1;
            EnteredLast(events, t, n) <==> events[n].Scanned? && Enters(ModeOf(events[..n]), events[n].code, t)
  {
  }

  lemma EnteredMore(events: seq<Event>, e: Event, t: int, i: int)
    requires 0 <= i < |events|
    ensures EnteredLast(events + [e], t, i) <==> EnteredLast(events, t, i) && e != Taken(t)
  {
    hide ModeOf, Enters;
    var more := events + [e];
    assert more[..i] == events[..i] && more[i] == events[i];
    assert more[|events|] == e;
    forall j | i < j < |events|
      ensures more[j] == events[j]
    {
    }
  }

  /** A run: a read comes only once Enter has been pressed in the reader's terminal. */
  ghost predicate IsRun(events: seq<Event>) {
    forall i {:trigger events[i]} :: 0 <= i < |events| && events[i].Taken? ==>
      0 <= events[i].t < 3 && ReadyAfter(events[..i], events[i].t)
  }

  lemma RunMore(events: seq<Event>, e: Event)
    requires IsRun(events) && (e.Taken? ==> 0 <= e.t < 3 && ReadyAfter(events, e.t))
    ensures IsRun(events + [e])
  {
    var more := events + [e];
    forall i | 0 <= i < |more| && more[i].Taken?
      ensures 0 <= more[i].t < 3 && ReadyAfter(more[..i], more[i].t)
    {
      assert more[..i] == events[..i];
      assert events[..|events|] == events;
    }
  }

  function Typed(input: Input, m: Mode, code: int, t: int): Input {
    if m.viewing == t && Decode(m, code).Edits? then Apply(input, Decode(m, code).edit) else input
  }

  /** What one more scan code makes of terminal `t`. */
  lemma AfterKey(events: seq<Event>, code: int, t: int)
    ensures var m, more := ModeOf(events), events + [Scanned(code)];
            && ModeOf(more) == NextMode(m, code)
            && InputOf(more, t) == Typed(InputOf(events, t), m, code, t)
            && (ReadyAfter(more, t) <==> Enters(m, code, t) || ReadyAfter(events, t))
  {
    hide Decode, NextMode, Fold, EditsIn, ModeAfter;
    var more := events + [Scanned(code)];
    assert more[..|more| - 1] == events;
    assert Codes(more) == Codes(events) + [code];
    FoldMore(Codes(events), code, t);
  }

  /** One more scan code, by the code, in the terminal viewed. */
  lemma KeyIs(events: seq<Event>, code: int)
    ensures var m, more := ModeOf(events), events + [Scanned(code)];
            var was, now := InputOf(events, m.viewing), InputOf(more, m.viewing);
            && (code == 0x0E ==>
                  ModeOf(more) == m && now.line == (if was.line == [] then [] else was.line[..|was.line| - 1])
                  && (was.line == [] ==> now == was))
            && (code == 0x1C ==> ModeOf(more) == m && now.line == [] && now.entered == Line(was.line))
            && (LetterKey(code) && !(m.ctrl && code == 0x26) && |was.line| < 127 ==>
                  ModeOf(more) == m && now.line == was.line + [KeyChar(m, code)])
            && (m.ctrl && code == 0x26 ==> ModeOf(more) == m.(ctrl := false))
            && ((m.ctrl && code == 0x26) || code == 0x0F || code < 2 || code > 0x3D ==> now == was)
  {
    hide InputOf, ModeOf, ReadyAfter, Decode, NextMode, KeyChar;
    var m := ModeOf(events);
    AfterKey(events, code, m.viewing);
    ModeKeys(m, code);
    KeyEdits(m, code);
  }

  /** And one more read. */
  lemma AfterRead(events: seq<Event>, u: int, t: int)
    ensures var more := events + [Taken(u)];
            && ModeOf(more) == ModeOf(events) && InputOf(more, t) == InputOf(events, t)
            && (ReadyAfter(more, t) <==> t != u && ReadyAfter(events, t))
  {
    hide Decode, NextMode, Fold, EditsIn, ModeAfter;
    var more := events + [Taken(u)];
    assert more[..|more| - 1] == events;
    assert Codes(more) == Codes(events);
  }

  lemma AtFirst(t: int)
    ensures ModeOf([]) == START && InputOf([], t) == Input([], None) && !ReadyAfter([], t) && IsRun([])
  {
  }

  /** The buffers and flags are what the run comes to. */
  ghost predicate Tracks(inputs: seq<Input>, ready: seq<bool>, events: seq<Event>) {
    && |inputs| == |ready| == 3
    && (forall t {:trigger inputs[t]} :: 0 <= t < 3 ==> inputs[t] == InputOf(events, t))
    && (forall t {:trigger ready[t]} :: 0 <= t < 3 ==> (ready[t] <==> ReadyAfter(events, t)))
  }

  /** What a scan code makes of the three flags. */
  function Flagged(ready: seq<bool>, m: Mode, code: int): seq<bool>
    requires |ready| == 3 && 0 <= m.viewing < 3
  {
    if Decode(m, code) == Edits(Enter) then ready[m.viewing := true] else ready
  }

  lemma TracksNone()
    ensures Tracks([Input([], None), Input([], None), Input([], None)], [false, false, false], [])
  {
    hide Fold, EditsIn, ModeAfter;
    AtFirst(0);
    AtFirst(1);
    AtFirst(2);
  }

  lemma TracksKey(inputs: seq<Input>, ready: seq<bool>, events: seq<Event>, code: int)
    requires Tracks(inputs, ready, events) && IsRun(events)
    ensures ModeOf(events + [Scanned(code)]) == NextMode(ModeOf(events), code)
    ensures var m := ModeOf(events);
            Tracks(Edited(inputs, m, code), Flagged(ready, m, code), events + [Scanned(code)])
    ensures IsRun(events + [Scanned(code)])
  {
    hide Decode, NextMode, InputOf, ModeOf, ReadyAfter, IsRun;
    forall t | 0 <= t < 3
      ensures Edited(inputs, ModeOf(events), code)[t] == InputOf(events + [Scanned(code)], t)
      ensures Flagged(ready, ModeOf(events), code)[t] <==> ReadyAfter(events + [Scanned(code)], t)
    {
      AfterKey(events, code, t);
    }
    AfterKey(events, code, 0);
    RunMore(events, Scanned(code));
  }

  lemma TracksRead(inputs: seq<Input>, ready: seq<bool>, events: seq<Event>, u: int)
    requires Tracks(inputs, ready, events) && IsRun(events) && 0 <= u < 3 && ready[u]
    ensures ModeOf(events + [Taken(u)]) == ModeOf(events)
    ensures Tracks(inputs, ready[u := false], events + [Taken(u)]) && IsRun(events + [Taken(u)])
  {
    hide InputOf, ModeOf, ReadyAfter, IsRun;
    forall t | 0 <= t < 3
      ensures inputs[t] == InputOf(events + [Taken(u)], t)
      ensures ready[u := false][t] <==> ReadyAfter(events + [Taken(u)], t)
    {
      AfterRead(events, u, t);
    }
    AfterRead(events, u, 0);
    RunMore(events, Taken(u));
  }

  // ----- whose line a reader gets

  const A_PRESSED := 0x1E
  const B_PRESSED := 0x30
  const ENTER_PRESSED := 0x1C

  /** Where a run has come to in the terminals `t` and `v`. */
  ghost predicate ComesTo(events: seq<Event>, m: Mode, t: int, mine: Input, ready: bool, v: int, theirs: Input) {
    && ModeOf(events) == m && IsRun(events)
    && InputOf(events, t) == mine && (ready ==> ReadyAfter(events, t)) && InputOf(events, v) == theirs
  }

  lemma Key(events: seq<Event>, m: Mode, t: int, mine: Input, ready: bool, v: int, theirs: Input, code: int)
    requires ComesTo(events, m, t, mine, ready, v, theirs)
    ensures ComesTo(events + [Scanned(code)], NextMode(m, code), t, Typed(mine, m, code, t),
                    ready || Enters(m, code, t), v, Typed(theirs, m, code, v))
  {
    hide Decode, NextMode, InputOf, ModeOf, ReadyAfter, IsRun;
    AfterKey(events, code, t);
    AfterKey(events, code, v);
    RunMore(events, Scanned(code));
  }

  const ALT_DOWN := START.(alt := true)
  const NOTHING := Input([], None)

  /** Alt and terminal `t`'s function key. */
  ghost function GoTo(t: int): seq<Event> {
    [] + [Scanned(ALT_PRESSED)] + [Scanned(F1_PRESSED + t)]
  }

  /** Then A and Enter. */
  ghost function OneLineIn(t: int): seq<Event> {
    GoTo(t) + [Scanned(A_PRESSED)] + [Scanned(ENTER_PRESSED)]
  }

  /** And terminal `v`'s function key, then B and Enter. */
  ghost function TwoLines(t: int, v: int): seq<Event> {
    OneLineIn(t) + [Scanned(F1_PRESSED + v)] + [Scanned(B_PRESSED)] + [Scanned(ENTER_PRESSED)]
  }

  lemma GoToComesTo(t: int, v: int)
    requires 0 <= t < 3 && 0 <= v < 3 && t != v
    ensures ComesTo(GoTo(t), ALT_DOWN.(viewing := t), t, NOTHING, false, v, NOTHING)
  {
    hide InputOf, ModeOf, ReadyAfter, IsRun;
    AtFirst(t);
    AtFirst(v);
    Key([], START, t, NOTHING, false, v, NOTHING, ALT_PRESSED);
    Key([] + [Scanned(ALT_PRESSED)], ALT_DOWN, t, NOTHING, false, v, NOTHING, F1_PRESSED + t);
  }

  lemma OneLineComesTo(t: int, v: int)
    requires 0 <= t < 3 && 0 <= v < 3 && t != v
    ensures ComesTo(OneLineIn(t), ALT_DOWN.(viewing := t), t, Input([], Line("a")), true, v, NOTHING)
  {
    hide GoTo, InputOf, ModeOf, ReadyAfter, IsRun;
    var at := ALT_DOWN.(viewing := t);
    GoToComesTo(t, v);
    Key(GoTo(t), at, t, NOTHING, false, v, NOTHING, A_PRESSED);
    Key(GoTo(t) + [Scanned(A_PRESSED)], at, t, Input("a", None), false, v, NOTHING, ENTER_PRESSED);
  }

  lemma TwoLinesComeTo(t: int, v: int)
    requires 0 <= t < 3 && 0 <= v < 3 && t != v
    ensures ComesTo(TwoLines(t, v), ALT_DOWN.(viewing := v), t, Input([], Line("a")), true, v, Input([], Line("b")))
  {
    hide OneLineIn, InputOf, ModeOf, ReadyAfter, IsRun;
    var a, at := Input([], Line("a")), ALT_DOWN.(viewing := v);
    OneLineComesTo(t, v);
    var events := OneLineIn(t);
    Key(events, ALT_DOWN.(viewing := t), t, a, true, v, NOTHING, F1_PRESSED + v);
    events := events + [Scanned(F1_PRESSED + v)];
    Key(events, at, t, a, true, v, NOTHING, B_PRESSED);
    events := events + [Scanned(B_PRESSED)];
    Key(events, at, t, a, true, v, Input("b", None), ENTER_PRESSED);
  }

  /** A run after which terminal `t`'s reader may go on while terminal `v` is viewed, with another line. */
  lemma LinesDiffer(t: int, v: int)
    requires 0 <= t < 3 && 0 <= v < 3 && t != v
    ensures var events := TwoLines(t, v);
            && IsRun(events) && ModeOf(events).viewing == v && ReadyAfter(events, t)
            && InputOf(events, t).entered == Line("a") && InputOf(events, v).entered == Line("b")
  {
    hide TwoLines, ModeOf, InputOf, ReadyAfter, IsRun;
    TwoLinesComeTo(t, v);
  }

  /** After a run `events` that ends with `v` viewed, terminal `t`'s reader may go on, and a line
      has been entered in both and not typed over. */
  ghost predicate CanRead(events: seq<Event>, t: int, v: int) {
    && IsRun(events) && ModeOf(events).viewing == v && ReadyAfter(events, t)
    && InputOf(events, t).entered.Line? && InputOf(events, v).entered.Line?
  }

  /** A reader in terminal `t` gets its own terminal's line after every such run, which it does from
      the viewed terminal's buffer, if and only if its terminal is the one viewed. */
  lemma OwnLineExactly(t: int, v: int, n: nat)
    requires 0 <= t < 3 && 0 <= v < 3 && n > 0
    ensures t == v <==>
              forall events :: CanRead(events, t, v) ==>
                FirstOf(InputOf(events, v).entered.line, n) == FirstOf(InputOf(events, t).entered.line, n)
  {
    if t != v {
      LinesDiffer(t, v);
      assert CanRead(TwoLines(t, v), t, v);
      assert FirstOf("a", n)[0] == 'a' && FirstOf("b", n)[0] == 'b';
    }
  }

  // ----- the driver

  class Driver {
    const bufs: seq<array<char>>     // each terminal's kbd_buf
    const pos: array<int>            // each terminal's buf_pos
    const ready: array<bool>         // each terminal's kbd_buf_ready
    var kbdBuf: array<char>
    var bufPos: int
    var leftShift: bool
    var rightShift: bool
    var ctrl: bool
    var caps: bool
    var alt: bool
    var viewing: int
    ghost var events: seq<Event>     // the keys and reads so far
    ghost var inputs: seq<Input>     // what each terminal's buffer holds

    ghost predicate Shaped() {
      && |bufs| == 3 && pos.Length == 3 && ready.Length == 3
      && bufs[0].Length == bufs[1].Length == bufs[2].Length == KBD_BUF_SIZE
      && bufs[0] != bufs[1] && bufs[0] != bufs[2] && bufs[1] != bufs[2]
    }

    ghost function M(): Mode
      reads this
    {
      Mode(leftShift, rightShift, ctrl, caps, alt, viewing)
    }

    /** How far terminal `t` has typed: buf_pos stands in for the viewed terminal. */
    ghost function PosOf(t: int): int
      requires 0 <= t < pos.Length
      reads `viewing, `bufPos, pos
    {
      if t == viewing then bufPos else pos[t]
    }

    /** Terminal `t`'s buffer begins with its input. */
    ghost predicate Holds(t: int, input: Input)
      requires Shaped() && 0 <= t < 3
      reads `viewing, `bufPos, pos, bufs[t]
    {
      && PosOf(t) == |input.line| < KBD_BUF_SIZE && bufs[t][..PosOf(t)] == input.line
      && (input.entered.Line? ==>
            && |input.entered.line| < KBD_BUF_SIZE
            && bufs[t][..|input.entered.line| + 1] == input.entered.line + ['\n'])
    }

    ghost predicate BuffersOk()
      reads `viewing, `bufPos, `kbdBuf, `inputs, pos, bufs
    {
      && Shaped() && 0 <= viewing < 3 && kbdBuf == bufs[viewing] && |inputs| == 3
      && forall t {:trigger Holds(t, inputs[t])} :: 0 <= t < 3 ==> Holds(t, inputs[t])
    }

    /** After any keys and reads, each terminal's buffer holds the fold of the edits that came while
        it was viewed, and its flag is set when Enter was among them since its last read. */
    ghost predicate Valid()
      reads this, pos, ready, bufs
    {
      BuffersOk() && M() == ModeOf(events) && Tracks(inputs, ready[..], events) && IsRun(events)
    }

    /** terminal_init and keyboard_init. */
    constructor ()
      ensures Valid() && events == []
      ensures fresh(pos) && fresh(ready) && |bufs| == 3 && forall t :: 0 <= t < 3 ==> fresh(bufs[t])
    {
      hide BuffersOk, ModeOf, InputOf, ReadyAfter, IsRun, Tracks, NextMode, Decode;
      var b0, b1, b2 := new char[KBD_BUF_SIZE], new char[KBD_BUF_SIZE], new char[KBD_BUF_SIZE];
      bufs, kbdBuf, bufPos := [b0, b1, b2], b0, 0;
      pos, ready := new int[3](_ => 0), new bool[3](_ => false);
      leftShift, rightShift, ctrl, caps, alt, viewing := false, false, false, false, false, 0;
      events, inputs := [], [Input([], None), Input([], None), Input([], None)];
      AtFirst(0);
      TracksNone();
      new;
      assert ready[..] == [false, false, false];
      NothingTyped();
    }

    /** The buffers hold nothing yet. */
    lemma NothingTyped()
      requires Shaped() && viewing == 0 && kbdBuf == bufs[0] && bufPos == pos[0] == pos[1] == pos[2] == 0
      requires inputs == [Input([], None), Input([], None), Input([], None)]
      ensures BuffersOk()
    {
      forall t | 0 <= t < 3
        ensures Holds(t, inputs[t])
      {
        assert bufs[t][..0] == [];
      }
    }

    /** The part of keyboard_int_handler that puts a character in the buffer. */
    method PutInBuffer(whatToPut: char)
      requires BuffersOk()
      modifies kbdBuf, ready, `bufPos, `inputs
      ensures BuffersOk() && M() == old(M())
      ensures var edit := if whatToPut == '\n' then Enter else Type(whatToPut);
              inputs == old(inputs)[viewing := Apply(old(inputs)[viewing], edit)]
      ensures ready[..] == if whatToPut == '\n' then old(ready[..])[viewing := true] else old(ready[..])
    {
      assert Holds(viewing, inputs[viewing]);
      ghost var input := inputs[viewing];
      if bufPos <= KBD_BUF_SIZE - 2 {
        kbdBuf[bufPos] := whatToPut;
        assert kbdBuf[..bufPos + 1] == input.line + [whatToPut];
        if whatToPut == '\n' {
          bufPos := 0;
          ready[viewing] := true;
        } else {
          bufPos := bufPos + 1;
        }
      } else if bufPos == KBD_BUF_SIZE - 1 && whatToPut == '\n' {
        kbdBuf[bufPos] := '\n';
        bufPos := 0;
        ready[viewing] := true;
      }
      inputs := inputs[viewing := Apply(input, if whatToPut == '\n' then Enter else Type(whatToPut))];
      forall t | 0 <= t < 3 && t != viewing
        ensures Holds(t, inputs[t])
      {
        assert old(Holds(t, inputs[t]));
      }
    }

    /** Backspace. */
    method RubOut()
      requires BuffersOk()
      modifies `bufPos, `inputs
      ensures BuffersOk() && M() == old(M())
      ensures inputs == old(inputs)[viewing := Apply(old(inputs)[viewing], Rub)]
      ensures bufPos == if old(bufPos) == 0 then 0 else old(bufPos) - 1
      ensures var was := old(inputs)[viewing].line; inputs[viewing].line == if was == [] then [] else was[..|was| - 1]
    {
      assert Holds(viewing, inputs[viewing]);
      ghost var input := inputs[viewing];
      if bufPos > 0 {
        bufPos := bufPos - 1;
      }
      inputs := inputs[viewing := Apply(input, Rub)];
      forall t | 0 <= t < 3 && t != viewing
        ensures Holds(t, inputs[t])
      {
        assert old(Holds(t, inputs[t]));
      }
    }

    /** The part of switch_terminal that changes buffers. */
    method SwitchTerminal(t: int)
      requires BuffersOk() && 0 <= t < 3
      modifies pos, `kbdBuf, `bufPos, `viewing
      ensures BuffersOk() && M() == old(M()).(viewing := t)
    {
      if t == viewing {
        return;
      }
      pos[viewing] := bufPos;
      kbdBuf := bufs[t];
      bufPos := pos[t];
      viewing := t;
      forall u | 0 <= u < 3
        ensures Holds(u, inputs[u])
      {
        assert old(Holds(u, inputs[u]));
      }
    }

    /** The modifier keys of check_and_handle_special_button. */
    method SetFlag(code: int) returns (special: bool)
      requires BuffersOk()
      modifies `leftShift, `rightShift, `ctrl, `caps, `alt
      ensures BuffersOk() && special == IsModifier(code)
      ensures M() == FlagSet(old(M()), code)
    {
      hide Holds;
      special := true;
      if code == CTRL_PRESSED || code == RIGHT_CTRL_PRESSED {
        ctrl := true;
      } else if code == CTRL_RELEASED {
        ctrl := false;
      } else if code == LEFT_SHIFT_PRESSED {
        leftShift := true;
      } else if code == LEFT_SHIFT_RELEASED {
        leftShift := false;
      } else if code == RIGHT_SHIFT_PRESSED {
        rightShift := true;
      } else if code == RIGHT_SHIFT_RELEASED {
        rightShift := false;
      } else if code == CAPSLOCK_PRESSED {
        caps := !caps;
      } else if code == ALT_PRESSED {
        alt := true;
      } else if code == ALT_RELEASED {
        alt := false;
      } else {
        special := false;
      }
    }

    /** check_and_handle_special_button. */
    method CheckSpecial(code: int) returns (special: bool)
      requires BuffersOk()
      modifies this, pos
      ensures BuffersOk() && special == IsSpecial(code) && events == old(events)
      ensures special ==> M() == NextMode(old(M()), code) && inputs == Edited(old(inputs), old(M()), code)
      ensures !special ==> M() == old(M()) && inputs == old(inputs) && kbdBuf == old(kbdBuf)
    {
      special := true;
      if code == BACKSPACE_PRESSED {
        RubOut();
      } else if F1_PRESSED <= code < F1_PRESSED + 3 {
        if alt {
          SwitchTerminal(code - F1_PRESSED);
        }
      } else if code == TAB_PRESSED || code in IGNORED {
      } else {
        special := SetFlag(code);
      }
    }

    /** A key that is not special: Ctrl and L, or a character for the buffer. */
    method TypeKey(code: int)
      requires BuffersOk() && IsNormal(code)
      modifies kbdBuf, ready, `ctrl, `bufPos, `inputs
      ensures BuffersOk() && M() == NextMode(old(M()), code) && inputs == Edited(old(inputs), old(M()), code)
      ensures ready[..] == Flagged(old(ready[..]), old(M()), code)
    {
      TableSize();
      if ctrl && NORMAL[code] == 'l' {
        ctrl := false;
      } else {
        var shouldModify := leftShift || rightShift;
        if IsLetter(code) {
          shouldModify := shouldModify != caps;
        }
        PutInBuffer(if shouldModify then SHIFTED[code] else NORMAL[code]);
      }
    }

    /** keyboard_int_handler, past the ports. */
    method Scan(code: int)
      requires BuffersOk()
      modifies this, pos, ready, kbdBuf
      ensures BuffersOk() && events == old(events)
      ensures M() == NextMode(old(M()), code) && inputs == Edited(old(inputs), old(M()), code)
      ensures ready[..] == Flagged(old(ready[..]), old(M()), code)
    {
      var special := CheckSpecial(code);
      if !special && 2 <= code < SCAN_CODE_SET_SIZE {
        TypeKey(code);
      }
    }

    /** A key is one more event of the run. */
    method Handle(code: int)
      requires Valid()
      modifies this, pos, ready, kbdBuf
      ensures Valid() && events == old(events) + [Scanned(code)]
      ensures var was, now := InputOf(old(events), old(viewing)).line, InputOf(events, old(viewing));
              && (code == 0x0E ==>
                    && viewing == old(viewing) && now.line == (if was == [] then [] else was[..|was| - 1])
                    && bufPos == (if old(bufPos) == 0 then 0 else old(bufPos) - 1))
              && (code == 0x1C ==>
                    && viewing == old(viewing) && bufPos == 0 && ready[viewing]
                    && now.line == [] && now.entered == Line(was))
              && (LetterKey(code) && !(old(ctrl) && code == 0x26) && |was| < 127 ==>
                    && viewing == old(viewing) && bufPos == old(bufPos) + 1 && |now.line| == |was| + 1
                    && now.line == was + [KeyChar(old(M()), code)])
              && ((old(ctrl) && code == 0x26) || code == 0x0F || code < 2 || code > 0x3D ==> now.line == was)
              && (old(ctrl) && code == 0x26 ==> !ctrl)
    {
      hide Decode, NextMode, InputOf, ModeOf, ReadyAfter, IsRun, KeyChar;
      KeyIs(events, code);
      KeyEdits(M(), code);
      assert Holds(viewing, inputs[viewing]);
      TracksKey(inputs, ready[..], events, code);
      Scan(code);
      events := events + [Scanned(code)];
      assert Holds(viewing, inputs[viewing]);
    }

    /** The copying loop of read_from_kbd_buf_to_buf. */
    method CopyOut(nbytes: nat) returns (buf: string)
      requires BuffersOk()
      ensures buf == ReadOut(kbdBuf[..], nbytes)
    {
      buf := [];
      ghost var all := kbdBuf[..];
      assert all[0..] == all;
      for i := 0 to nbytes
        invariant |buf| == i && 0 <= i <= KBD_BUF_SIZE
        invariant ReadOut(all, nbytes) == buf + ReadOut(all[i..], nbytes - i)
      {
        if i > KBD_BUF_SIZE - 1 {
          break;
        }
        var c := kbdBuf[i];
        assert all[i..][0] == c && all[i..][1..] == all[i + 1..];
        buf := buf + [c];
        if c == '\n' {
          break;
        }
      }
    }

    /** read_from_kbd_buf_to_buf, once Enter has been pressed in the running terminal.  It reads the
        viewed terminal's buffer: when a line was entered there and none of it typed over, what is
        read is that line and its newline, cut to `nbytes`.  OwnLineExactly says when that is the
        line the reader waited for. */
    method Read(running: int, nbytes: int) returns (n: int, buf: string)
      requires Valid() && 0 <= running < 3 && (nbytes > 0 ==> ready[running])
      modifies ready, `events
      ensures Valid() && n == if nbytes <= 0 then -1 else |buf|
      ensures events == if nbytes <= 0 then old(events) else old(events) + [Taken(running)]
      ensures nbytes > 0 ==> buf == ReadOut(bufs[viewing][..], nbytes)
      ensures var entered := InputOf(old(events), viewing).entered;
              nbytes > 0 && entered.Line? ==>
                buf == if nbytes <= |entered.line| then entered.line[..nbytes] else entered.line + "\n"
    {
      hide Fold, EditsIn, ModeAfter, ModeOf, InputOf, ReadyAfter, IsRun;
      buf := [];
      if nbytes <= 0 {
        return -1, buf;
      }
      buf := CopyOut(nbytes);
      n := |buf|;
      if inputs[viewing].entered.Line? {
        LineEntered(nbytes);
      }
      TracksRead(inputs, ready[..], events, running);
      ready[running] := false;
      events := events + [Taken(running)];
    }

    /** What a reader finds in the viewed terminal's buffer. */
    lemma LineEntered(nbytes: nat)
      requires Valid() && inputs[viewing].entered.Line?
      ensures ReadOut(kbdBuf[..], nbytes) == FirstOf(inputs[viewing].entered.line, nbytes)
    {
      hide Fold, EditsIn, ModeAfter, ModeOf, ReadyAfter, IsRun;
      assert Holds(viewing, inputs[viewing]);
      LinesAreLines(Codes(events), viewing);
      ReadsEntered(kbdBuf[..], inputs[viewing].entered.line, nbytes);
    }
  }
}
