/**
 Whole directives of a configuration file, in any spelling: what ngx_conf_read_token of
 src/core/ngx_conf_file.c makes of a text is told from the pieces the text is made of.
 */
module ConfText {
  import opened ConfTokens
  import opened ConfBare

  /** A word, and the quotes around it, or a space where there are none. */
  datatype Word = Word(text: string, how: char)

  predicate Spellable(w: Word) { IsQuote(w.how) || (w.how == ' ' && Bare(w.text)) }

  function Spell(w: Word): string { if w.how == ' ' then w.text else Quote(w.text, w.how) }

  /** A word without its end. */
  function Opening(w: Word): string { if w.how == ' ' then w.text else [w.how] + Escape(w.text, w.how) }

  /** Blanks and comments; the last comment has no line feed only at the end of the file. */
  predicate Gap(g: string, comment: bool, over: bool) {
    if g == [] then !comment || over
    else if comment then Gap(g[1..], g[0] != '\n', over)
    else if g[0] == '#' then Gap(g[1..], true, over)
    else Blank(g[0]) && Gap(g[1..], false, over)
  }

  /** A word with what is before it and the blank behind it. */
  datatype Part = Part(gap: string, word: Word, blank: char)

  /** How a directive ends: with a character that is apart from the last word or touches
      it, or with the file, which may cut a word. */
  datatype Last = Apart(gap: string, ch: char) | Touching(gap: string, word: Word, ch: char)
                | Over(gap: string) | Cut(gap: string, word: Word)

  function PartText(p: Part): string { p.gap + Spell(p.word) + [p.blank] }

  function LastText(l: Last): string {
    match l
    case Apart(g, ch) => g + [ch]
    case Touching(g, w, ch) => g + Spell(w) + [ch]
    case Over(g) => g
    case Cut(g, w) => g + Opening(w)
  }

  function Text(ps: seq<Part>, l: Last): string {
    if ps == [] then LastText(l) else PartText(ps[0]) + Text(ps[1..], l)
  }

  /** A brace behind such a word would be one more character of it. */
  predicate Trails(w: string, variable: bool) {
    if w == [] then variable
    else if w[0] == '\\' then |w| > 1 && Trails(w[2..], false)
    else Trails(w[1..], w[0] == '$' || w[0] == '{')
  }

  predicate TakesBrace(w: Word) {
    w.how == ' ' && w.text != [] && Trails(if w.text[0] == '\\' then w.text else w.text[1..], false)
  }

  predicate ProperPart(p: Part) { Gap(p.gap, false, false) && Spellable(p.word) && Blank(p.blank) }

  predicate ProperLast(l: Last) {
    match l
    case Apart(g, ch) => Gap(g, false, false) && ch in [';', '{', '}']
    case Touching(g, w, ch) =>
      Gap(g, false, false) && Spellable(w) && (ch == ';' || (ch == '{' && !TakesBrace(w)))
    case Over(g) => Gap(g, false, true)
    case Cut(g, w) => Gap(g, false, false) && Spellable(w)
  }

  predicate Proper(ps: seq<Part>, l: Last) { (forall i :: 0 <= i < |ps| ==> ProperPart(ps[i])) && ProperLast(l) }

  function Words(ps: seq<Part>): seq<string> { if ps == [] then [] else [ps[0].word.text] + Words(ps[1..]) }

  function AllWords(ps: seq<Part>, l: Last): seq<string> {
    Words(ps) + if l.Touching? then [l.word.text] else []
  }

  /** A semicolon and an opening brace need words before them, a closing brace must have
      none, and so must the end of the file. */
  function Verdict(some: bool, l: Last): Status {
    match l
    case Apart(_, ch) =>
      if ch == '}' then if some then Unexpected else BlockDone
      else if !some then Unexpected
      else if ch == '{' then BlockStart else Ok
    case Touching(_, _, ch) => if ch == '{' then BlockStart else Ok
    case Over(_) => if some then EarlyEnd else FileDone
    case Cut(_, _) => EarlyEnd
  }

  // ---------------------------------------------------------------- gaps

  lemma HereFirst(file: string, pos: nat, s: string)
    requires Here(file, pos, s) && s != []
    ensures pos < |file| && file[pos] == s[0] && Here(file, pos + 1, s[1..])
  {
    assert s == [s[0]] + s[1..];
    HereSplit(file, pos, [s[0]], s[1..]);
    assert file[pos + 0] == [s[0]][0];
  }

  predicate Waiting(st: State, comment: bool) { if comment then InComment(st) else Between(st) }

  lemma {:induction false} GapSkipped(file: string, pos: nat, st: State, g: string, comment: bool, over: bool)
      returns (st': State)
    requires Here(file, pos, g) && Waiting(st, comment) && Gap(g, comment, over) && st.start <= pos
    ensures Token(file, pos, st) == Token(file, pos + |g|, st') && st'.args == st.args && st'.variable == st.variable
    ensures Between(st') || (over && InComment(st'))
    ensures st'.start <= pos + |g|
    decreases |g|
  {
    if g == [] {
      st' := st;
    } else {
      HereFirst(file, pos, g);
      var st1 := RemarkStep(file, pos, st);
      assert Token(file, pos, st) == Token(file, pos + 1, st1) by {
        hide Step;
      }
      hide Step, Token;
      st' := GapSkipped(file, pos + 1, st1, g[1..], if comment then g[0] != '\n' else g[0] == '#', over);
    }
  }

  // --------------------------------------------------------------- words

  lemma {:induction false} Unlimited(file: string, pos: nat, st: State)
    requires pos <= |file|
    ensures TokenWithin(file, pos, st, |file| + 1) == Token(file, pos, st)
    decreases |file| - pos
  {
    hide Step;
    if pos < |file| {
      match Step(file, pos, st)
      case Stop(_, _, _) =>
      case Go(st') => Unlimited(file, pos + 1, st');
    }
  }

  lemma QuoteRead(file: string, pos: nat, st: State, w: string, q: char) returns (st': State)
    requires Here(file, pos, Quote(w, q)) && IsQuote(q) && Between(st) && st.start <= pos
    ensures Token(file, pos, st) == Token(file, pos + |Quote(w, q)|, st')
    ensures Closed(st') && st'.args == st.args + [w] && st'.start <= pos + |Quote(w, q)| && !st'.variable
  {
    hide Token, TokenWithin, Closed;
    st' := QuoteIsRead(file, pos, st, w, q, |file| + 1);
    Unlimited(file, pos, st);
    Unlimited(file, pos + |Quote(w, q)|, st');
  }

  /** The rest of a bare word. */
  lemma {:induction false} RestRead(file: string, pos: nat, st: State, w: string) returns (st': State)
    requires InWord(st) && Literal(file, st.start, pos) && Here(file, pos, w) && Kept(w, st.variable)
    ensures Token(file, pos, st) == Token(file, pos + |w|, st')
    ensures InWord(st') && Literal(file, st.start, pos + |w|) && st'.start == st.start && st'.args == st.args
    ensures st'.variable == Trails(w, st.variable)
    decreases |w|
  {
    hide Token, Step, Unescape, Literal;
    if w == [] {
      st' := st;
    } else {
      HereFirst(file, pos, w);
      LiteralMoreIf(file, st.start, pos, w);
      if w[0] == '\\' {
        HereFirst(file, pos + 1, w[1..]);
        var st1 := PairStep(file, pos, st);
        LiteralMoreIf(file, st.start, pos + 1, w[1..]);
        assert w[1..][1..] == w[2..];
        st' := RestRead(file, pos + 2, st1, w[2..]);
      } else {
        var st1 := WordStep(file, pos, st);
        st' := RestRead(file, pos + 1, st1, w[1..]);
      }
    }
  }

  lemma LiteralMoreIf(file: string, start: nat, pos: nat, w: string)
    requires Literal(file, start, pos) && Here(file, pos, w) && w != []
    requires w[0] == '\\' ==> |w| > 1 && !Escapes(w[1])
    ensures Literal(file, start, pos + 1)
  {
    hide Literal, Unescape;
    HereFirst(file, pos, w);
    if w[0] == '\\' {
      HereFirst(file, pos + 1, w[1..]);
    }
    LiteralMore(file, start, pos);
  }

  lemma BareRead(file: string, pos: nat, st: State, w: string) returns (st': State)
    requires Here(file, pos, w) && Bare(w) && Between(st) && !st.variable
    ensures Token(file, pos, st) == Token(file, pos + |w|, st')
    ensures InWord(st') && Literal(file, pos, pos + |w|) && st'.start == pos && st'.args == st.args
    ensures st'.variable == TakesBrace(Word(w, ' '))
  {
    hide Token, Step, Unescape, Literal;
    HereFirst(file, pos, w);
    LiteralNone(file, pos);
    var st1 := Begun(file, pos, st);
    if w[0] == '\\' {
      st' := RestRead(file, pos, st1, w);
    } else {
      LiteralMore(file, pos, pos);
      st' := RestRead(file, pos + 1, st1, w[1..]);
    }
  }

  lemma LiteralIs(file: string, pos: nat, w: string)
    requires Here(file, pos, w) && Literal(file, pos, pos + |w|) && pos + |w| < |file|
    ensures Unescape(file, pos, pos + |w|) == w
  {
    assert file[pos..pos + |w|] == w;
    assert Unescape(file, pos + |w|, pos + |w|) == [];
  }

  /** What follows a quoted word. */
  lemma ClosedNext(file: string, pos: nat, st: State) returns (st': State)
    requires pos < |file| && Closed(st) && !st.variable
    ensures var r, ch := Token(file, pos, st), file[pos];
            if Blank(ch) then r == Token(file, pos + 1, st')
            else if ch == ')' then r == Token(file, pos, st')
            else
              && r.args == st.args && r.pos == pos + 1
              && r.status == if ch == ';' then Ok else if ch == '{' then BlockStart else Unexpected
    ensures Between(st') && st'.args == st.args && !st'.variable && st'.start == st.start
  {
    hide Unescape;
    st' := st.(lastSpace := true, needSpace := false);
    if Blank(file[pos]) {
      st' := Step(file, pos, st).st;
    }
  }

  /** What is read of a word in any spelling, and what the character behind it does.  A
      quoted word needs a blank behind it, or a parenthesis, which begins the next word. */
  lemma WordThen(file: string, pos: nat, st: State, w: Word) returns (st': State)
    requires Here(file, pos, Spell(w)) && Spellable(w) && Between(st) && !st.variable && st.start <= pos
    requires pos + |Spell(w)| < |file|
    ensures var end := pos + |Spell(w)|;
            var r, ch := Token(file, pos, st), file[end];
            && (Blank(ch) ==> r == Token(file, end + 1, st'))
            && (ch == ';' ==> r.status == Ok && r.args == st.args + [w.text] && r.pos == end + 1)
            && (ch == '{' && !TakesBrace(w) ==>
                  r.status == BlockStart && r.args == st.args + [w.text] && r.pos == end + 1)
            && (IsQuote(w.how) && ch == ')' ==> r == Token(file, end, st'))
            && (IsQuote(w.how) && !Blank(ch) && ch !in [';', '{', ')'] ==>
                  r.status == Unexpected && r.args == st.args + [w.text] && r.pos == end + 1)
    ensures var end := pos + |Spell(w)|;
            Blank(file[end]) || (IsQuote(w.how) && file[end] == ')') ==>
              Between(st') && st'.args == st.args + [w.text] && !st'.variable && st'.start <= end
  {
    hide Token, Step, Unescape, Literal, Bare, TakesBrace, Quote;
    var end := pos + |Spell(w)|;
    if w.how == ' ' {
      var st1 := BareRead(file, pos, st, w.text);
      LiteralIs(file, pos, w.text);
      assert Word(w.text, ' ') == w;
      st' := st1;
      if Blank(file[end]) {
        st' := BlankStep(file, end, st1);
      } else if file[end] == ';' || (file[end] == '{' && !st1.variable) {
        LastStep(file, end, st1);
      }
    } else {
      var st1 := QuoteRead(file, pos, st, w.text, w.how);
      st' := ClosedNext(file, end, st1);
    }
  }

  // ----------------------------------------------------------- directives

  lemma AtEnd(file: string, st: State)
    ensures Token(file, |file|, st) ==
              Result(if st.args != [] || !st.lastSpace then EarlyEnd else FileDone, st.args, st.line, |file|)
  {
  }

  lemma Ended(file: string, pos: nat, st: State)
    requires pos < |file| && Between(st) && file[pos] in [';', '{', '}']
    ensures var r, ch, some := Token(file, pos, st), file[pos], st.args != [];
            r.args == st.args && r.pos == pos + 1 && r.status == Verdict(some, Apart([], ch))
  {
    hide Unescape;
  }

  lemma WordCutShort(file: string, pos: nat, st: State, w: Word)
    requires Here(file, pos, Opening(w)) && pos + |Opening(w)| == |file| && Spellable(w) && Between(st) && !st.variable
    requires st.start <= pos
    ensures var r := Token(file, pos, st); r.status == EarlyEnd && r.args == st.args && r.pos == |file|
  {
    if w.how == ' ' {
      hide Token, Step, Unescape, Literal, Bare, TakesBrace;
      var st' := BareRead(file, pos, st, w.text);
      AtEnd(file, st');
    } else {
      HereSplit(file, pos, [w.how], Escape(w.text, w.how));
      assert file[pos + 0] == [w.how][0];
      var size := |file| + 1;
      var st1 := Step(file, pos, st).st;
      WithinGo(file, pos, st, st1, size);
      hide TokenWithin, Step, Token;
      var st' := InsideQuotes(file, pos + 1, st1, w.text, w.how, size);
      Unlimited(file, pos, st);
      Unlimited(file, |file|, st');
      AtEnd(file, st');
    }
  }

  lemma LastRead(file: string, pos: nat, st: State, l: Last)
    requires Here(file, pos, LastText(l)) && ProperLast(l) && Between(st) && !st.variable && st.start <= pos
    requires l.Over? || l.Cut? ==> pos + |LastText(l)| == |file|
    ensures var r := Token(file, pos, st);
            && r.status == Verdict(st.args != [], l) && r.args == st.args + AllWords([], l)
            && r.pos == pos + |LastText(l)|
  {
    hide Token, Step, Unescape, Gap, Spellable, TakesBrace, Between, Blank, Spell, Opening;
    match l
    case Apart(g, ch) =>
      HereSplit(file, pos, g, [ch]);
      var st' := GapSkipped(file, pos, st, g, false, false);
      assert file[pos + |g| + 0] == [ch][0];
      Ended(file, pos + |g|, st');
    case Touching(g, w, ch) =>
      assert LastText(l) == g + (Spell(w) + [ch]);
      HereSplit(file, pos, g, Spell(w) + [ch]);
      HereSplit(file, pos + |g|, Spell(w), [ch]);
      var st' := GapSkipped(file, pos, st, g, false, false);
      assert file[pos + |g| + |Spell(w)| + 0] == [ch][0];
      var _ := WordThen(file, pos + |g|, st', w);
    case Over(g) =>
      var st' := GapSkipped(file, pos, st, g, false, true);
      AtEnd(file, st');
      WaitingAtEnd(st');
    case Cut(g, w) =>
      HereSplit(file, pos, g, Opening(w));
      var st' := GapSkipped(file, pos, st, g, false, false);
      WordCutShort(file, pos + |g|, st', w);
  }

  lemma WaitingAtEnd(st: State)
    requires Between(st) || InComment(st)
    ensures st.lastSpace
  {
  }

  lemma PartRead(file: string, pos: nat, st: State, p: Part, rest: string) returns (st': State)
    requires Here(file, pos, PartText(p) + rest) && ProperPart(p) && Between(st) && !st.variable && st.start <= pos
    ensures var next := pos + |PartText(p)|;
            && Here(file, next, rest) && Token(file, pos, st) == Token(file, next, st')
            && Between(st') && !st'.variable && st'.start <= next && st'.args == st.args + [p.word.text]
  {
    hide Token, Step, Unescape, Gap, Spellable, Between, Blank, Spell;
    assert PartText(p) + rest == p.gap + (Spell(p.word) + ([p.blank] + rest));
    HereSplit(file, pos, p.gap, Spell(p.word) + ([p.blank] + rest));
    var at := pos + |p.gap|;
    HereSplit(file, at, Spell(p.word), [p.blank] + rest);
    var end := at + |Spell(p.word)|;
    HereSplit(file, end, [p.blank], rest);
    assert file[end + 0] == [p.blank][0];
    var st1 := GapSkipped(file, pos, st, p.gap, false, false);
    st' := WordThen(file, at, st1, p.word);
  }

  lemma {:induction false} TextRead(file: string, pos: nat, st: State, ps: seq<Part>, l: Last)
    requires Here(file, pos, Text(ps, l)) && Proper(ps, l) && Between(st) && !st.variable && st.start <= pos
    requires l.Over? || l.Cut? ==> pos + |Text(ps, l)| == |file|
    ensures var r := Token(file, pos, st);
            && r.status == Verdict(st.args != [] || ps != [], l) && r.args == st.args + AllWords(ps, l)
            && r.pos == pos + |Text(ps, l)|
    decreases |ps|
  {
    hide Token, Here, ProperPart, ProperLast, Between, PartText, LastText, Verdict;
    if ps == [] {
      LastRead(file, pos, st, l);
    } else {
      var st' := PartRead(file, pos, st, ps[0], Text(ps[1..], l));
      TextRead(file, pos + |PartText(ps[0])|, st', ps[1..], l);
      assert st'.args + AllWords(ps[1..], l) == st.args + AllWords(ps, l);
    }
  }

  /** Whatever a text is made of, it is read as that: its words, in whichever quotes, what
      its end means, and the line feeds in it; with a buffer of any size, unless something
      in it is too long. */
  lemma TextIsRead(before: string, ps: seq<Part>, l: Last, after: string, line: nat, size: nat)
    requires Proper(ps, l) && (l.Over? || l.Cut? ==> after == [])
    ensures var file, text, st := before + Text(ps, l) + after, Text(ps, l), Init(|before|, line);
            var r := Result(Verdict(ps != [], l), AllWords(ps, l), line + Feeds(text), |before| + |text|);
            && Token(file, |before|, st) == r
            && (TokenWithin(file, |before|, st, size).status == TooLong || TokenWithin(file, |before|, st, size) == r)
  {
    hide Token, TokenWithin, Text, Proper, AllWords, Verdict, Feeds;
    var file, st, text := before + Text(ps, l) + after, Init(|before|, line), Text(ps, l);
    assert Here(file, |before|, text);
    TextRead(file, |before|, st, ps, l);
    Unlimited(file, |before|, st);
    assert file[|before|..|before|] == [] && Feeds([]) == 0 by {
      FeedsNone();
    }
    LinesCounted(file, |before|, line, |before|, st, |file| + 1);
    LimitOnlyRefuses(file, |before|, st, size);
    VerdictFits(ps != [], l);
    assert file[|before|..|before| + |text|] == text;
    assert [] + AllWords(ps, l) == AllWords(ps, l);
  }

  lemma FeedsNone()
    ensures Feeds([]) == 0
  {
  }

  lemma VerdictFits(some: bool, l: Last)
    ensures Verdict(some, l) != TooLong
  {
  }
}
