/**
 Words written without quotes in a configuration file (ngx_conf_read_token in
 src/core/ngx_conf_file.c): exactly which of them are read back as they are written.
 */
module ConfBare {
  import opened ConfTokens

  predicate Escapes(ch: char) { ch in ['"', '\'', '\\', 't', 'r', 'n'] }

  /** The rest of a word; a brace is part of it only directly behind a dollar sign or
      another such brace, and a backslash takes the next character with it. */
  predicate Kept(w: string, variable: bool) {
    if w == [] then true
    else if w[0] == '\\' then |w| > 1 && !Escapes(w[1]) && Kept(w[2..], false)
    else if w[0] == '{' then variable && Kept(w[1..], true)
    else !Blank(w[0]) && w[0] != ';' && Kept(w[1..], w[0] == '$')
  }

  /** A dollar sign in front of everything does not count as one. */
  predicate Bare(w: string) {
    && w != [] && !Blank(w[0]) && w[0] !in [';', '{', '}', '#', '"', '\'']
    && if w[0] == '\\' then Kept(w, false) else Kept(w[1..], false)
  }

  /** Words with a space between them and a semicolon behind. */
  function Plain(ws: seq<string>): string
    requires ws != []
    decreases |ws|, 0
  {
    ws[0] + Tail(ws[1..])
  }

  function Tail(ws: seq<string>): string
    decreases |ws|, 1
  {
    if ws == [] then [';'] else [' '] + Plain(ws)
  }

  /** The room that words take with one character behind each. */
  function Room(ws: seq<string>): nat { if ws == [] then 0 else |ws[0]| + 1 + Room(ws[1..]) }

  lemma {:induction false} PlainLength(ws: seq<string>)
    requires ws != []
    ensures |Plain(ws)| == Room(ws)
  {
    if |ws| > 1 {
      PlainLength(ws[1..]);
    }
  }

  predicate Open(st: State) { !st.lastSpace && !st.needSpace }

  /** Inside a word that began without a quote. */
  predicate InWord(st: State) { Open(st) && !st.quoted && !st.sQuoted && !st.dQuoted && !st.comment }

  // ------------------------------------------------- what any run does

  lemma {:induction false} UnescapeLength(file: string, src: nat, end: nat)
    requires src <= end < |file|
    ensures |Unescape(file, src, end)| <= end - src
    decreases end - src
  {
    if src < end {
      UnescapeLength(file, src + 1, end);
      if src + 2 <= end {
        UnescapeLength(file, src + 2, end);
      }
    }
  }

  lemma OpenStep(file: string, pos: nat, st: State)
    requires pos < |file| && Open(st)
    ensures match Step(file, pos, st)
            case Stop(_, args, _) => args == st.args + [Unescape(file, st.start, pos)]
            case Go(st') => if Open(st') then st'.args == st.args && st'.start == st.start
                            else st'.args == st.args + [Unescape(file, st.start, pos)]
  {
    hide Unescape;
  }

  lemma SpaceStep(file: string, pos: nat, st: State)
    requires pos < |file| && !Open(st)
    ensures match Step(file, pos, st)
            case Stop(_, args, _) => args == st.args
            case Go(st') => st'.args == st.args && (Open(st') ==> pos <= st'.start <= pos + 1)
  {
    hide Unescape;
  }

  /** Words are only added. */
  lemma {:induction false} ArgsGrow(file: string, pos: nat, st: State)
    requires pos <= |file|
    ensures st.args <= Token(file, pos, st).args
    decreases |file| - pos
  {
    if pos < |file| {
      if Open(st) {
        OpenStep(file, pos, st);
      } else {
        SpaceStep(file, pos, st);
      }
      hide Step, Unescape;
      match Step(file, pos, st)
      case Stop(_, _, _) =>
      case Go(st') => ArgsGrow(file, pos + 1, st');
    }
  }

  lemma RoomNone()
    ensures Room([]) == 0
  {
  }

  lemma RoomMore(a: seq<string>, w: string, r: seq<string>)
    requires a + [w] <= r
    ensures Room(r[|a|..]) == |w| + 1 + Room(r[|a| + 1..])
  {
    assert r[|a|..][0] == (a + [w])[|a|];
    assert r[|a|..][1..] == r[|a| + 1..];
  }

  /** The words that are read take no more room than there is, less what the escapes of
      the word at hand take. */
  lemma {:induction false} RoomTaken(file: string, pos: nat, st: State, less: nat)
    requires pos <= |file| && if Open(st) then st.start <= pos else less == 0
    requires Open(st) ==> forall e :: pos <= e < |file| ==> |Unescape(file, st.start, e)| <= e - st.start - less
    ensures var r := Token(file, pos, st);
            && st.args <= r.args
            && (r.status == Ok ==> Room(r.args[|st.args|..]) <= r.pos - less - if Open(st) then st.start else pos)
    decreases |file| - pos, 0
  {
    hide Room;
    ArgsGrow(file, pos, st);
    assert Room([]) == 0 by {
      RoomNone();
    }
    if pos < |file| {
      if Open(st) {
        OpenStep(file, pos, st);
      } else {
        SpaceStep(file, pos, st);
      }
      hide Step, Unescape;
      match Step(file, pos, st)
      case Stop(_, args, _) =>
        if Open(st) {
          RoomMore(st.args, Unescape(file, st.start, pos), args);
          assert args[|st.args| + 1..] == [];
        } else {
          assert args[|st.args|..] == [];
        }
      case Go(st') =>
        if Open(st') == Open(st) {
          RoomTaken(file, pos + 1, st', less);
        } else if Open(st') {
          WordRoom(file, pos + 1, st');
        } else {
          RoomTaken(file, pos + 1, st', 0);
          RoomMore(st.args, Unescape(file, st.start, pos), Token(file, pos + 1, st').args);
        }
    }
  }

  lemma WordRoom(file: string, pos: nat, st: State)
    requires pos <= |file| && Open(st) && st.start <= pos
    ensures var r := Token(file, pos, st);
            st.args <= r.args && (r.status == Ok ==> Room(r.args[|st.args|..]) <= r.pos - st.start)
    decreases |file| - pos, 1
  {
    hide Token, Unescape;
    forall e | pos <= e < |file| ensures |Unescape(file, st.start, e)| <= e - st.start - 0 {
      UnescapeLength(file, st.start, e);
    }
    RoomTaken(file, pos, st, 0);
  }

  // ------------------------------------------------------ a word's rest

  /** Nothing before pos is changed by resolving escapes. */
  ghost predicate Literal(file: string, start: nat, pos: nat) {
    && start <= pos <= |file|
    && forall e :: pos <= e < |file| ==> Unescape(file, start, e) == file[start..pos] + Unescape(file, pos, e)
  }

  lemma UnescapeFirst(file: string, src: nat, end: nat)
    requires src < end < |file| && (file[src] == '\\' ==> !Escapes(file[src + 1]))
    ensures Unescape(file, src, end) == [file[src]] + Unescape(file, src + 1, end)
  {
  }

  lemma LiteralMore(file: string, start: nat, pos: nat)
    requires Literal(file, start, pos) && pos < |file|
    requires file[pos] == '\\' ==> pos + 1 < |file| && !Escapes(file[pos + 1])
    ensures Literal(file, start, pos + 1)
  {
    hide Unescape;
    assert file[start..pos + 1] == file[start..pos] + [file[pos]];
    forall e | pos + 1 <= e < |file| ensures Unescape(file, start, e) ==
        file[start..pos + 1] + Unescape(file, pos + 1, e) {
      assert Unescape(file, start, e) == file[start..pos] + Unescape(file, pos, e);
      UnescapeFirst(file, pos, e);
    }
  }

  /** The first word read is as long as the one written, and the words leave no room. */
  ghost predicate Filled(r: Result, args: seq<string>, start: nat, end: nat, goal: nat) {
    && r.status == Ok && r.pos == goal && args < r.args && |r.args[|args|]| == end - start
    && Room(r.args[|args|..]) == goal - start
  }

  /** One more character of the word. */
  lemma WordStep(file: string, pos: nat, st: State) returns (st': State)
    requires pos < |file| && InWord(st) && (file[pos] == '{' ==> st.variable)
    requires !Blank(file[pos]) && file[pos] != ';' && file[pos] != '\\'
    ensures Token(file, pos, st) == Token(file, pos + 1, st')
    ensures InWord(st') && st'.start == st.start && st'.args == st.args && st'.variable == (file[pos] in ['$', '{'])
  {
    hide Unescape;
    st' := Step(file, pos, st).st;
  }

  lemma PairStep(file: string, pos: nat, st: State) returns (st': State)
    requires pos + 1 < |file| && InWord(st) && file[pos] == '\\'
    ensures Token(file, pos, st) == Token(file, pos + 2, st')
    ensures InWord(st') && st'.start == st.start && st'.args == st.args && !st'.variable
  {
    hide Unescape;
    var st1 := Step(file, pos, st).st;
    st' := Step(file, pos + 1, st1).st;
  }

  /** The semicolon ends the directive, and a brace opens a block. */
  lemma LastStep(file: string, pos: nat, st: State)
    requires pos < |file| && InWord(st) && (file[pos] == ';' || (file[pos] == '{' && !st.variable))
    ensures var r := Token(file, pos, st);
            && r.status == (if file[pos] == ';' then Ok else BlockStart) && r.pos == pos + 1
            && r.args == st.args + [Unescape(file, st.start, pos)]
  {
    hide Unescape;
  }

  lemma BlankStep(file: string, pos: nat, st: State) returns (st': State)
    requires pos < |file| && InWord(st) && Blank(file[pos])
    ensures Token(file, pos, st) == Token(file, pos + 1, st')
    ensures Between(st') && !st'.variable && st'.args == st.args + [Unescape(file, st.start, pos)]
              && st'.start == st.start
  {
    hide Unescape;
    st' := Step(file, pos, st).st;
  }

  /** A blank inside the word cuts it short. */
  lemma BlankCuts(file: string, pos: nat, st: State, end: nat, goal: nat)
    requires InWord(st) && st.start <= pos < end <= |file| && Blank(file[pos])
    ensures !Filled(Token(file, pos, st), st.args, st.start, end, goal)
  {
    hide Token, Step, Unescape, Room;
    UnescapeLength(file, st.start, pos);
    var st' := BlankStep(file, pos, st);
    ArgsGrow(file, pos + 1, st');
    assert st'.args[|st.args|] == Unescape(file, st.start, pos);
  }

  /** So does all that ends a word. */
  lemma WordCut(file: string, pos: nat, st: State, end: nat, goal: nat)
    requires InWord(st) && Literal(file, st.start, pos) && pos < end < goal && end <= |file|
    requires Blank(file[pos]) || file[pos] == ';' || (file[pos] == '{' && !st.variable)
    ensures !Filled(Token(file, pos, st), st.args, st.start, end, goal)
  {
    hide Token, Step, Unescape, Room;
    if Blank(file[pos]) {
      BlankCuts(file, pos, st, end, goal);
    } else {
      LastStep(file, pos, st);
    }
  }

  /** An escape that stands for another character leaves room. */
  lemma EscapeShortens(file: string, pos: nat, st: State, end: nat, goal: nat)
    requires InWord(st) && Literal(file, st.start, pos) && pos + 1 < |file| && file[pos] == '\\'
               && Escapes(file[pos + 1])
    ensures !Filled(Token(file, pos, st), st.args, st.start, end, goal)
  {
    hide Token, Step, Room;
    var st' := PairStep(file, pos, st);
    forall e | pos + 2 <= e < |file| ensures |Unescape(file, st.start, e)| <= e - st.start - 1 {
      UnescapeLength(file, pos + 2, e);
    }
    RoomTaken(file, pos + 2, st', 1);
  }

  lemma {:induction false} AtLeast(file: string, pos: nat, st: State, least: nat)
    requires pos <= |file| && Open(st)
    requires forall e :: pos <= e < |file| ==> |Unescape(file, st.start, e)| >= least
    ensures var r := Token(file, pos, st); st.args < r.args ==> |r.args[|st.args|]| >= least
    decreases |file| - pos
  {
    if pos < |file| {
      OpenStep(file, pos, st);
      hide Step, Unescape;
      match Step(file, pos, st)
      case Stop(_, _, _) =>
      case Go(st') =>
        if Open(st') {
          AtLeast(file, pos + 1, st', least);
        } else {
          ArgsGrow(file, pos + 1, st');
          assert st'.args[|st.args|] == Unescape(file, st.start, pos);
        }
    }
  }

  /** A backslash behind all else takes the character that was to end the word. */
  lemma BackslashJoins(file: string, pos: nat, st: State, goal: nat)
    requires InWord(st) && Literal(file, st.start, pos) && pos + 1 < |file| && file[pos] == '\\'
               && !Escapes(file[pos + 1])
    ensures !Filled(Token(file, pos, st), st.args, st.start, pos + 1, goal)
  {
    hide Token, Step, Room, Unescape;
    var st' := PairStep(file, pos, st);
    LiteralMore(file, st.start, pos);
    LiteralMore(file, st.start, pos + 1);
    AtLeast(file, pos + 2, st', pos + 2 - st.start);
  }

  lemma HereRest(file: string, pos: nat, w: string, t: string, n: nat)
    requires Here(file, pos, w + t) && n <= |w|
    ensures Here(file, pos + n, w[n..] + t) && Here(file, pos + |w|, t)
              && forall i :: 0 <= i < |w| ==> file[pos + i] == w[i]
  {
    HereSplit(file, pos, w, t);
    assert w == w[..n] + w[n..];
    assert w + t == w[..n] + (w[n..] + t);
    HereSplit(file, pos, w[..n], w[n..] + t);
  }

  /** The word is read as it is written, and then either the directive is over or the
      next word begins. */
  ghost predicate ReadOn(file: string, r: Result, args: seq<string>, w: string, end: nat, last: bool) {
    if last then r.status == Ok && r.args == args + [w] && r.pos == end + 1
    else end < |file| && exists st' :: r == Token(file, end + 1, st') && Between(st') && !st'.variable
                                 && st'.args == args + [w]
  }

  /** At the character behind a word. */
  lemma WordOver(file: string, pos: nat, st: State, ws: seq<string>)
    requires InWord(st) && Literal(file, st.start, pos) && Here(file, pos, Tail(ws))
    ensures ReadOn(file, Token(file, pos, st), st.args, file[st.start..pos], pos, ws == [])
  {
    hide Token, Step;
    assert file[pos] == Tail(ws)[0];
    assert Unescape(file, st.start, pos) == file[st.start..pos] + Unescape(file, pos, pos) == file[st.start..pos];
    if ws == [] {
      LastStep(file, pos, st);
    } else {
      var st' := BlankStep(file, pos, st);
    }
  }

  /** The rest of a word is kept exactly if the word is read to its end. */
  lemma {:induction false} RestExactly(file: string, pos: nat, st: State, w: string, ws: seq<string>, goal: nat)
    requires InWord(st) && Literal(file, st.start, pos) && Here(file, pos, w + Tail(ws)) && goal > pos + |w|
    ensures var r, end := Token(file, pos, st), pos + |w|;
            && (Kept(w, st.variable) ==> end <= |file| && ReadOn(file, r, st.args, file[st.start..end], end, ws == []))
            && (!Kept(w, st.variable) ==> !Filled(r, st.args, st.start, end, goal))
    decreases |w|
  {
    hide Token, Step, ReadOn, Unescape, Filled, Literal, Room, Plain;
    HereRest(file, pos, w, Tail(ws), 0);
    var end := pos + |w|;
    if w == [] {
      WordOver(file, pos, st, ws);
      return;
    }
    assert file[pos] == w[0] && file[end] == Tail(ws)[0];
    hide Here, Tail;
    if w[0] == '\\' {
      assert |w| > 1 ==> file[pos + 1] == w[1];
      if |w| == 1 {
        BackslashJoins(file, pos, st, goal);
      } else if Escapes(w[1]) {
        EscapeShortens(file, pos, st, end, goal);
      } else {
        var st' := PairStep(file, pos, st);
        LiteralMore(file, st.start, pos);
        LiteralMore(file, st.start, pos + 1);
        HereRest(file, pos, w, Tail(ws), 2);
        RestExactly(file, pos + 2, st', w[2..], ws, goal);
      }
    } else if Blank(w[0]) || w[0] == ';' || (w[0] == '{' && !st.variable) {
      WordCut(file, pos, st, end, goal);
    } else {
      var st' := WordStep(file, pos, st);
      LiteralMore(file, st.start, pos);
      HereRest(file, pos, w, Tail(ws), 1);
      RestExactly(file, pos + 1, st', w[1..], ws, goal);
    }
  }

  // ------------------------------------------------------- whole words

  lemma FirstStep(file: string, pos: nat, st: State)
    requires pos < |file| && Between(st) && !st.variable
    ensures var ch, next := file[pos], Step(file, pos, st);
            if ch in [';', '{', '}'] then next.Stop? && next.args == st.args
            else
              && next.Go? && next.st.args == st.args && !next.st.variable
              && if Blank(ch) || ch == '#' then !Open(next.st)
                 else if ch in ['"', '\''] then Open(next.st) && next.st.start == pos + 1
                 else if ch == '\\' then
                   next == Step(file, pos, st.(lastSpace := false, start := pos, startLine := st.line))
                 else InWord(next.st) && next.st.start == pos
  {
    hide Unescape;
  }

  /** What cannot begin a word leaves room, or ends the directive. */
  lemma NotBegun(file: string, pos: nat, st: State, end: nat, goal: nat)
    requires pos < |file| && Between(st) && !st.variable
    requires Blank(file[pos]) || file[pos] in [';', '{', '}', '#', '"', '\'']
    ensures !Filled(Token(file, pos, st), st.args, pos, end, goal)
  {
    FirstStep(file, pos, st);
    hide Step, Unescape;
    if file[pos] !in [';', '{', '}'] {
      var st' := Step(file, pos, st).st;
      assert Token(file, pos, st) == Token(file, pos + 1, st');
      hide Token;
      if Open(st') {
        WordRoom(file, pos + 1, st');
      } else {
        RoomTaken(file, pos + 1, st', 0);
      }
    }
  }

  lemma LiteralNone(file: string, pos: nat)
    requires pos <= |file|
    ensures Literal(file, pos, pos)
  {
  }

  /** A first character that begins a word.  If it is a backslash, it is as if the word had
      begun before it. */
  lemma Begun(file: string, pos: nat, st: State) returns (st': State)
    requires pos < |file| && Between(st) && !st.variable
    requires !Blank(file[pos]) && file[pos] !in [';', '{', '}', '#', '"', '\'']
    ensures InWord(st') && st'.start == pos && st'.args == st.args && !st'.variable
    ensures Token(file, pos, st) == Token(file, if file[pos] == '\\' then pos else pos + 1, st')
  {
    FirstStep(file, pos, st);
    hide Step, Unescape;
    st' := if file[pos] == '\\' then st.(lastSpace := false, start := pos, startLine := st.line)
        else Step(file, pos, st).st;
  }

  /** A word is read as it is written exactly if it is a bare one. */
  lemma WordExactly(file: string, pos: nat, st: State, w: string, ws: seq<string>, goal: nat)
    requires Between(st) && !st.variable && Here(file, pos, w + Tail(ws)) && goal > pos + |w|
    ensures var r, end := Token(file, pos, st), pos + |w|;
            && (Bare(w) ==> end <= |file| && ReadOn(file, r, st.args, w, end, ws == []))
            && (!Bare(w) ==> !Filled(r, st.args, pos, end, goal))
  {
    hide Token, Step, ReadOn, Unescape, Filled, Literal, Room, Plain;
    HereRest(file, pos, w, Tail(ws), 0);
    var end := pos + |w|;
    assert file[pos] == (w + Tail(ws))[0];
    assert file[pos..end] == w;
    hide Tail, Here;
    LiteralNone(file, pos);
    if Blank(file[pos]) || file[pos] in [';', '{', '}', '#', '"', '\''] {
      NotBegun(file, pos, st, end, goal);
    } else {
      var st' := Begun(file, pos, st);
      if file[pos] == '\\' {
        RestExactly(file, pos, st', w, ws, goal);
      } else {
        LiteralMore(file, pos, pos);
        HereRest(file, pos, w, Tail(ws), 1);
        RestExactly(file, pos + 1, st', w[1..], ws, goal);
      }
    }
  }

  /** Words written with a space between them are read back, as they are and to the end
      of the directive, exactly if each of them is bare. */
  lemma {:induction false} PlainExactly(file: string, pos: nat, st: State, ws: seq<string>)
    requires ws != [] && Between(st) && !st.variable && Here(file, pos, Plain(ws))
    ensures var r := Token(file, pos, st);
            (forall w :: w in ws ==> Bare(w)) <==>
                r.status == Ok && r.args == st.args + ws && r.pos == pos + |Plain(ws)|
    decreases |ws|
  {
    hide Token, Step, Bare;
    var w, rest, goal := ws[0], ws[1..], pos + |Plain(ws)|;
    var r := Token(file, pos, st);
    PlainLength(ws);
    WordExactly(file, pos, st, w, rest, goal);
    assert ws == [w] + rest;
    if !Bare(w) {
      assert (st.args + ws)[|st.args|..] == ws;
    } else if rest != [] {
      var end := pos + |w|;
      var st' :| r == Token(file, end + 1, st') && Between(st') && !st'.variable && st'.args == st.args + [w];
      HereRest(file, pos, w, Tail(rest), 0);
      HereSplit(file, end, [' '], Plain(rest));
      PlainExactly(file, end + 1, st', rest);
      assert st.args + [w] + rest == st.args + ws;
    }
  }

  /** The same of a whole file. */
  lemma BareExactly(before: string, ws: seq<string>, after: string, line: nat)
    requires ws != []
    ensures var r := Token(before + Plain(ws) + after, |before|, Init(|before|, line));
            (forall w :: w in ws ==> Bare(w)) <==> r.status == Ok && r.args == ws && r.pos == |before| + |Plain(ws)|
  {
    hide Token, Plain, Bare;
    var file := before + Plain(ws) + after;
    assert Here(file, |before|, Plain(ws));
    PlainExactly(file, |before|, Init(|before|, line), ws);
    assert [] + ws == ws;
  }
}
