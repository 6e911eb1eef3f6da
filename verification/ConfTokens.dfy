/**
 The configuration tokenizer of src/core/ngx_conf_file.c (ngx_conf_read_token) over
 a whole file: one step per character, and what a run of steps returns.
 */
module ConfTokens {

  datatype Status = Ok | BlockStart | BlockDone | FileDone | Unexpected | EarlyEnd | TooLong | ReadFailed

  /** The scanner's flags, the words so far, where the current word began, and the
      line. */
  datatype State = State(needSpace: bool, lastSpace: bool, comment: bool, variable: bool, quoted: bool,
                         sQuoted: bool, dQuoted: bool, args: seq<string>, start: nat, startLine: nat, line: nat)

  datatype Result = Result(status: Status, args: seq<string>, line: nat, pos: nat)

  datatype Next = Go(st: State) | Stop(status: Status, args: seq<string>, line: nat)

  predicate Blank(ch: char) { ch == ' ' || ch == '\t' || ch == '\r' || ch == '\n' }

  function Init(pos: nat, line: nat): State {
    State(false, true, false, false, false, false, false, [], pos, line, line)
  }

  /** The characters of a word from src up to end, with escapes resolved. */
  function Unescape(file: string, src: nat, end: nat): string
    requires end < |file|
    decreases end - src
  {
    if src >= end then []
    else if file[src] != '\\' then [file[src]] + Unescape(file, src + 1, end)
    else if file[src + 1] in ['"', '\'', '\\'] then [file[src + 1]] + Unescape(file, src + 2, end)
    else if file[src + 1] == 't' then ['\t'] + Unescape(file, src + 2, end)
    else if file[src + 1] == 'r' then ['\r'] + Unescape(file, src + 2, end)
    else if file[src + 1] == 'n' then ['\n'] + Unescape(file, src + 2, end)
    else ['\\'] + Unescape(file, src + 1, end)
  }

  /** A word ends before pos. */
  function Found(file: string, pos: nat, st: State): Next
    requires pos < |file|
  {
    var args := st.args + [Unescape(file, st.start, pos)];
    if file[pos] == ';' then Stop(Ok, args, st.line)
    else if file[pos] == '{' then Stop(BlockStart, args, st.line)
    else Go(st.(args := args))
  }

  /** At the place where a word may begin. */
  function StepSpace(file: string, pos: nat, st: State): Next
    requires pos < |file|
  {
    var ch := file[pos];
    if Blank(ch) then Go(st)
    else if ch == ';' || ch == '{' then
      Stop(if st.args == [] then Unexpected else if ch == '{' then BlockStart else Ok, st.args, st.line)
    else if ch == '}' then
      Stop(if st.args != [] then Unexpected else BlockDone, st.args, st.line)
    else
      var st1 := st.(start := pos, startLine := st.line);
      if ch == '#' then Go(st1.(comment := true))
      else if ch == '\\' then Go(st1.(quoted := true, lastSpace := false))
      else if ch == '"' then Go(st1.(start := pos + 1, dQuoted := true, lastSpace := false))
      else if ch == '\'' then Go(st1.(start := pos + 1, sQuoted := true, lastSpace := false))
      else Go(st1.(lastSpace := false))
  }

  /** Inside a word. */
  function StepWord(file: string, pos: nat, st: State): Next
    requires pos < |file|
  {
    var ch := file[pos];
    if ch == '{' && st.variable then Go(st)
    else
      var st1 := st.(variable := false);
      if ch == '\\' then Go(st1.(quoted := true))
      else if ch == '$' then Go(st1.(variable := true))
      else if st.dQuoted then
        if ch == '"' then Found(file, pos, st1.(dQuoted := false, needSpace := true)) else Go(st1)
      else if st.sQuoted then
        if ch == '\'' then Found(file, pos, st1.(sQuoted := false, needSpace := true)) else Go(st1)
      else if Blank(ch) || ch == ';' || ch == '{' then Found(file, pos, st1.(lastSpace := true))
      else Go(st1)
  }

  function Step(file: string, pos: nat, given: State): Next
    requires pos < |file|
  {
    var ch := file[pos];
    var st := if ch == '\n' then given.(line := given.line + 1, comment := false) else given;
    if st.comment then Go(st)
    else if st.quoted then Go(st.(quoted := false))
    else if st.needSpace then
      if Blank(ch) then Go(st.(lastSpace := true, needSpace := false))
      else if ch == ';' then Stop(Ok, st.args, st.line)
      else if ch == '{' then Stop(BlockStart, st.args, st.line)
      else if ch == ')' then StepSpace(file, pos, st.(lastSpace := true, needSpace := false))
      else Stop(Unexpected, st.args, st.line)
    else if st.lastSpace then StepSpace(file, pos, st)
    else StepWord(file, pos, st)
  }

  /** The directive that starts at pos. */
  function Token(file: string, pos: nat, st: State): Result
    requires pos <= |file|
    decreases |file| - pos
  {
    if pos == |file| then
      Result(if st.args != [] || !st.lastSpace then EarlyEnd else FileDone, st.args, st.line, pos)
    else
      match Step(file, pos, st)
      case Stop(status, args, line) => Result(status, args, line, pos + 1)
      case Go(st') => Token(file, pos + 1, st')
  }

  /** The same with a limit: an error when more input is wanted after `size`
      characters since the current word began. */
  function TokenWithin(file: string, pos: nat, st: State, size: nat): Result
    requires pos <= |file|
    decreases |file| - pos
  {
    if pos == |file| then
      Result(if st.args != [] || !st.lastSpace then EarlyEnd else FileDone, st.args, st.line, pos)
    else if pos - st.start == size then
      Result(TooLong, st.args, st.startLine, pos)
    else
      match Step(file, pos, st)
      case Stop(status, args, line) => Result(status, args, line, pos + 1)
      case Go(st') => TokenWithin(file, pos + 1, st', size)
  }

  /** The limit shows in no other way than by that one error. */
  lemma {:induction false} LimitOnlyRefuses(file: string, pos: nat, st: State, size: nat)
    requires pos <= |file|
    ensures var r := TokenWithin(file, pos, st, size); r.status != TooLong ==> r == Token(file, pos, st)
    decreases |file| - pos
  {
    hide Step;
    if pos < |file| && pos - st.start != size {
      match Step(file, pos, st)
      case Stop(_, _, _) =>
      case Go(st') => LimitOnlyRefuses(file, pos + 1, st', size);
    }
  }

  /** A larger buffer refuses less. */
  lemma {:induction false} LargerRefusesLess(file: string, pos: nat, st: State, small: nat, large: nat)
    requires pos <= |file| && st.start <= pos && pos - st.start <= small <= large && small > 0
    ensures TokenWithin(file, pos, st, small).status != TooLong ==> TokenWithin(file, pos, st, large).status != TooLong
    decreases |file| - pos
  {
    if pos < |file| && pos - st.start != small {
      StartNear(file, pos, st);
      hide Step;
      match Step(file, pos, st)
      case Stop(_, _, _) =>
      case Go(st') => LargerRefusesLess(file, pos + 1, st', small, large);
    }
  }

  /** The start of the word never runs ahead of the position. */
  lemma StartNear(file: string, pos: nat, st: State)
    requires pos < |file| && st.start <= pos
    ensures Step(file, pos, st).Go? ==> st.start <= Step(file, pos, st).st.start <= pos + 1
  {
    hide Unescape;
  }

  // --------------------------------------------------------------- lines

  /** The line feeds in a text. */
  function Feeds(s: string): nat { if s == [] then 0 else (if s[0] == '\n' then 1 else 0) + Feeds(s[1..]) }

  lemma {:induction false} FeedsMore(s: string, k: nat)
    requires k < |s|
    ensures Feeds(s[..k + 1]) == Feeds(s[..k]) + if s[k] == '\n' then 1 else 0
    decreases k
  {
    if k == 0 {
      assert s[..1][1..] == [] && s[..0] == [];
    } else {
      FeedsMore(s[1..], k - 1);
      assert s[..k + 1][1..] == s[1..][..k] && s[..k][1..] == s[1..][..k - 1];
    }
  }

  lemma FeedsTo(file: string, base: nat, pos: nat)
    requires base <= pos < |file|
    ensures Feeds(file[base..pos + 1]) == Feeds(file[base..pos]) + if file[pos] == '\n' then 1 else 0
  {
    FeedsMore(file[base..], pos - base);
    assert file[base..][..pos - base] == file[base..pos] && file[base..][..pos + 1 - base] == file[base..pos + 1];
  }

  predicate OnLine(next: Next, line: nat) {
    if next.Stop? then next.line == line else next.st.line == line
  }

  /** The step goes on in the same word, or in one that begins here. */
  predicate Begins(next: Next, st: State, pos: nat, ch: char) {
    next.Go? ==>
      || (next.st.start == st.start && next.st.startLine == st.startLine)
      || (ch != '\n' && next.st.startLine == next.st.line && (next.st.start == pos || next.st.start == pos + 1))
  }

  lemma SpaceLine(file: string, pos: nat, st: State)
    requires pos < |file|
    ensures OnLine(StepSpace(file, pos, st), st.line)
  {
  }

  lemma SpaceBegins(file: string, pos: nat, st: State)
    requires pos < |file|
    ensures Begins(StepSpace(file, pos, st), st, pos, file[pos])
  {
    var ch, next, st1 := file[pos], StepSpace(file, pos, st), st.(start := pos, startLine := st.line);
    if Blank(ch) {
      assert next == Go(st);
    } else if ch == ';' || ch == '{' || ch == '}' {
      assert next.Stop?;
    } else if ch == '#' {
      assert next == Go(st1.(comment := true));
    } else if ch == '\\' {
      assert next == Go(st1.(quoted := true, lastSpace := false));
    } else if ch == '"' {
      assert next == Go(st1.(start := pos + 1, dQuoted := true, lastSpace := false));
    } else if ch == '\'' {
      assert next == Go(st1.(start := pos + 1, sQuoted := true, lastSpace := false));
    } else {
      assert next == Go(st1.(lastSpace := false));
    }
  }

  lemma WordLine(file: string, pos: nat, st: State)
    requires pos < |file|
    ensures OnLine(StepWord(file, pos, st), st.line)
  {
    hide Unescape;
  }

  lemma WordBegins(file: string, pos: nat, st: State)
    requires pos < |file|
    ensures Begins(StepWord(file, pos, st), st, pos, file[pos])
  {
    hide Unescape;
  }

  lemma StepLine(file: string, pos: nat, st: State)
    requires pos < |file|
    ensures OnLine(Step(file, pos, st), st.line + if file[pos] == '\n' then 1 else 0)
    ensures Begins(Step(file, pos, st), st, pos, file[pos])
  {
    var st1 := if file[pos] == '\n' then st.(line := st.line + 1, comment := false) else st;
    var st2 := st1.(lastSpace := true, needSpace := false);
    SpaceLine(file, pos, st1);
    SpaceLine(file, pos, st2);
    SpaceBegins(file, pos, st1);
    SpaceBegins(file, pos, st2);
    WordLine(file, pos, st1);
    WordBegins(file, pos, st1);
    hide StepSpace, StepWord;
  }

  /** The line where the reader stops is the line it began on and one more for each line
      feed it has passed, whatever they were part of; a word that is too long is reported
      on the line where it begins. */
  lemma {:induction false} LinesCounted(file: string, base: nat, first: nat, pos: nat, st: State, size: nat)
    requires base <= st.start <= pos <= |file| && st.line == first + Feeds(file[base..pos])
    requires st.startLine == first + Feeds(file[base..st.start])
    ensures var r := TokenWithin(file, pos, st, size);
            if r.status == TooLong
            then base <= r.pos - size <= |file| && r.line == first + Feeds(file[base..r.pos - size])
            else pos <= r.pos <= |file| && r.line == first + Feeds(file[base..r.pos])
    decreases |file| - pos
  {
    hide Step, Feeds;
    if pos < |file| && pos - st.start != size {
      StepLine(file, pos, st);
      StepNotLong(file, pos, st);
      FeedsTo(file, base, pos);
      match Step(file, pos, st)
      case Stop(_, _, _) =>
      case Go(st') => LinesCounted(file, base, first, pos + 1, st', size);
    }
  }

  lemma StepNotLong(file: string, pos: nat, st: State)
    requires pos < |file|
    ensures Step(file, pos, st).Stop? ==> Step(file, pos, st).status != TooLong
  {
    hide Unescape;
  }

  // ------------------------------------------------------------- quoting

  predicate Quotable(ch: char, q: char) { ch == q || ch == '\\' }

  predicate IsQuote(q: char) { q == '"' || q == '\'' }

  /** A word as it is written between quotes, double or single ones. */
  function Escape(w: string, q: char): string {
    if w == [] then []
    else if Quotable(w[0], q) then ['\\', w[0]] + Escape(w[1..], q)
    else [w[0]] + Escape(w[1..], q)
  }

  function Quote(w: string, q: char): string { [q] + Escape(w, q) + [q] }

  /** A directive whose words are all quoted. */
  function Render(ws: seq<string>, q: char): string
    requires ws != []
  {
    if |ws| == 1 then Quote(ws[0], q) + [';'] else Quote(ws[0], q) + [' '] + Render(ws[1..], q)
  }

  ghost predicate Here(file: string, pos: nat, s: string) {
    pos + |s| <= |file| && forall i :: 0 <= i < |s| ==> file[pos + i] == s[i]
  }

  lemma HereSplit(file: string, pos: nat, a: string, b: string)
    ensures Here(file, pos, a + b) <==> Here(file, pos, a) && Here(file, pos + |a|, b)
  {
    if Here(file, pos, a + b) {
      forall i | 0 <= i < |a| ensures file[pos + i] == a[i] {
        assert (a + b)[i] == a[i];
      }
      forall i | 0 <= i < |b| ensures file[pos + |a| + i] == b[i] {
        assert (a + b)[|a| + i] == b[i];
        assert file[pos + (|a| + i)] == (a + b)[|a| + i];
      }
    }
    if Here(file, pos, a) && Here(file, pos + |a|, b) {
      forall i | 0 <= i < |a + b| ensures file[pos + i] == (a + b)[i] {
        if i >= |a| {
          assert file[pos + |a| + (i - |a|)] == b[i - |a|];
        }
      }
    }
  }

  lemma {:induction false} UnescapeEscape(file: string, pos: nat, w: string, q: char, end: nat)
    requires IsQuote(q) && Here(file, pos, Escape(w, q)) && end == pos + |Escape(w, q)| < |file|
    ensures Unescape(file, pos, end) == w
    decreases w
  {
    if w != [] {
      var first := if Quotable(w[0], q) then ['\\', w[0]] else [w[0]];
      assert Escape(w, q) == first + Escape(w[1..], q);
      HereSplit(file, pos, first, Escape(w[1..], q));
      assert file[pos] == first[0];
      if Quotable(w[0], q) {
        assert file[pos + 1] == first[1];
      }
      UnescapeEscape(file, pos + |first|, w[1..], q, end);
      assert w == [w[0]] + w[1..];
    }
  }

  /** The same with tab, carriage return and line feed written by their letters. */
  function EscapeAll(w: string, q: char): string {
    if w == [] then [] else EscapeOne(w[0], q) + EscapeAll(w[1..], q)
  }

  function EscapeOne(ch: char, q: char): string {
    if Quotable(ch, q) then ['\\', ch]
    else if ch as int == 9 then "\\t"
    else if ch as int == 13 then "\\r"
    else if ch as int == 10 then "\\n"
    else [ch]
  }

  lemma UnescapeOne(file: string, pos: nat, ch: char, q: char, end: nat)
    requires IsQuote(q) && Here(file, pos, EscapeOne(ch, q)) && pos + |EscapeOne(ch, q)| <= end < |file|
    ensures Unescape(file, pos, end) == [ch] + Unescape(file, pos + |EscapeOne(ch, q)|, end)
  {
    var first := EscapeOne(ch, q);
    assert file[pos + 0] == first[0] && (|first| > 1 ==> file[pos + 1] == first[1]);
  }

  lemma {:induction false} UnescapeAll(file: string, pos: nat, w: string, q: char, end: nat)
    requires IsQuote(q) && Here(file, pos, EscapeAll(w, q)) && end == pos + |EscapeAll(w, q)| < |file|
    ensures Unescape(file, pos, end) == w
    decreases w
  {
    hide Here, EscapeOne;
    if w != [] {
      var first := EscapeOne(w[0], q);
      HereSplit(file, pos, first, EscapeAll(w[1..], q));
      UnescapeOne(file, pos, w[0], q, end);
      UnescapeAll(file, pos + |first|, w[1..], q, end);
      assert w == [w[0]] + w[1..];
    }
  }

  predicate Inside(st: State, q: char) {
    st.dQuoted == (q == '"') && st.sQuoted == (q == '\'') && !st.quoted && !st.needSpace && !st.lastSpace && !st.comment
  }

  lemma InsideStep(file: string, pos: nat, st: State, q: char) returns (st': State)
    requires pos < |file| && Inside(st, q) && IsQuote(q) && file[pos] != q
    ensures Step(file, pos, st) == Go(st') && st'.start == st.start && st'.args == st.args
    ensures if file[pos] == '\\' then Inside(st'.(quoted := false), q) && st'.quoted else Inside(st', q)
  {
    st' := Step(file, pos, st).st;
  }

  lemma QuotedStep(file: string, pos: nat, st: State, q: char) returns (st': State)
    requires pos < |file| && Inside(st.(quoted := false), q) && st.quoted
    ensures Step(file, pos, st) == Go(st') && st'.start == st.start && st'.args == st.args && Inside(st', q)
  {
    st' := Step(file, pos, st).st;
  }

  lemma WithinGo(file: string, pos: nat, st: State, st': State, size: nat)
    requires pos < |file| && Step(file, pos, st) == Go(st') && pos - st.start != size
    ensures TokenWithin(file, pos, st, size) == TokenWithin(file, pos + 1, st', size)
  {
    hide Step;
  }

  lemma WithinFull(file: string, pos: nat, st: State, size: nat)
    requires pos < |file| && pos - st.start == size
    ensures TokenWithin(file, pos, st, size).status == TooLong
  {
  }

  /** Between the quotes only the position changes, up to the limit. */
  lemma {:induction false} InsideQuotes(file: string, pos: nat, st: State, w: string, q: char, size: nat)
      returns (st': State)
    requires IsQuote(q) && Here(file, pos, Escape(w, q)) && Inside(st, q)
               && st.start <= pos <= st.start + size
    ensures if pos + |Escape(w, q)| - st.start <= size
            then TokenWithin(file, pos, st, size) == TokenWithin(file, pos + |Escape(w, q)|, st', size)
            else TokenWithin(file, pos, st, size).status == TooLong
    ensures Inside(st', q) && st'.start == st.start && st'.args == st.args
    decreases w
  {
    hide Step, TokenWithin;
    if w == [] || pos - st.start == size {
      st' := st;
      if w != [] {
        WithinFull(file, pos, st, size);
      }
    } else {
      var first := if Quotable(w[0], q) then ['\\', w[0]] else [w[0]];
      assert Escape(w, q) == first + Escape(w[1..], q);
      HereSplit(file, pos, first, Escape(w[1..], q));
      assert file[pos] == first[0];
      var st1 := InsideStep(file, pos, st, q);
      WithinGo(file, pos, st, st1, size);
      if !Quotable(w[0], q) {
        st' := InsideQuotes(file, pos + 1, st1, w[1..], q, size);
      } else {
        var st2 := QuotedStep(file, pos + 1, st1, q);
        if pos + 1 - st.start == size {
          st' := st;
          WithinFull(file, pos + 1, st1, size);
        } else {
          WithinGo(file, pos + 1, st1, st2, size);
          st' := InsideQuotes(file, pos + 2, st2, w[1..], q, size);
        }
      }
    }
  }

  lemma WithinFullIf(file: string, pos: nat, st: State, size: nat)
    requires pos < |file|
    ensures pos - st.start == size ==> TokenWithin(file, pos, st, size).status == TooLong
  {
  }

  predicate Between(st: State) {
    st.lastSpace && !st.needSpace && !st.comment && !st.quoted && !st.sQuoted && !st.dQuoted
  }

  predicate Closed(st: State) {
    st.needSpace && !st.comment && !st.quoted && !st.sQuoted && !st.dQuoted
  }

  /** A quoted word is read back as it was, if it is shorter than the limit. */
  lemma QuoteIsRead(file: string, pos: nat, st: State, w: string, q: char, size: nat) returns (st': State)
    requires IsQuote(q) && Here(file, pos, Quote(w, q)) && Between(st) && st.start <= pos < st.start + size
    ensures if |Escape(w, q)| < size then TokenWithin(file, pos, st, size) ==
              TokenWithin(file, pos + |Quote(w, q)|, st', size)
            else TokenWithin(file, pos, st, size).status == TooLong
    ensures Closed(st') && st'.args == st.args + [w] && st'.start == pos + 1 && !st'.variable
  {
    hide TokenWithin, Unescape;
    HereSplit(file, pos, [q] + Escape(w, q), [q]);
    HereSplit(file, pos, [q], Escape(w, q));
    var end := pos + 1 + |Escape(w, q)|;
    assert file[pos] == [q][0] && file[end] == [q][0];
    var st1 := Step(file, pos, st).st;
    WithinGo(file, pos, st, st1, size);
    var st2 := InsideQuotes(file, pos + 1, st1, w, q, size);
    UnescapeEscape(file, pos + 1, w, q, end);
    st' := Step(file, end, st2).st;
    WithinFullIf(file, end, st2, size);
    if |Escape(w, q)| < size {
      WithinGo(file, end, st2, st', size);
    }
  }

  /** The words of a quoted directive fit a buffer, the last one with its semicolon and
      the others with the space and the quote that follow. */
  ghost predicate Short(ws: seq<string>, q: char, size: nat)
    requires ws != []
  {
    && (forall i :: 0 <= i < |ws| - 1 ==> |Quote(ws[i], q)| < size)
    && |Quote(ws[|ws| - 1], q)| <= size
  }

  lemma ShortRest(ws: seq<string>, q: char, size: nat)
    requires |ws| > 1
    ensures Short(ws, q, size) <==> |Quote(ws[0], q)| < size && Short(ws[1..], q, size)
  {
    hide Quote;
    var rest := ws[1..];
    if |Quote(ws[0], q)| < size && Short(rest, q, size) {
      forall i | 0 <= i < |ws| - 1 ensures |Quote(ws[i], q)| < size {
        assert i > 0 ==> ws[i] == rest[i - 1];
      }
    }
    if Short(ws, q, size) {
      forall i | 0 <= i < |rest| - 1 ensures |Quote(rest[i], q)| < size {
        assert rest[i] == ws[i + 1];
      }
    }
  }

  /** A rendered directive is read back, all its words, whatever is in them, exactly if
      they fit the buffer. */
  lemma {:induction false} RenderIsRead(file: string, pos: nat, st: State, ws: seq<string>, q: char, size: nat)
    requires IsQuote(q) && ws != [] && Here(file, pos, Render(ws, q)) && Between(st)
    requires st.start <= pos <= st.start + size && size > 0
    ensures var r := TokenWithin(file, pos, st, size);
            if pos - st.start < size && Short(ws, q, size) then r.status == Ok && r.args == st.args + ws
                && r.pos == pos + |Render(ws, q)|
            else r.status == TooLong
    decreases |ws|
  {
    hide Step, TokenWithin, Escape;
    var first := Quote(ws[0], q);
    if |ws| == 1 {
      HereSplit(file, pos, first, [';']);
      assert ws == [ws[0]];
    } else {
      assert Render(ws, q) == first + ([' '] + Render(ws[1..], q));
      HereSplit(file, pos, first, [' '] + Render(ws[1..], q));
      HereSplit(file, pos + |first|, [' '], Render(ws[1..], q));
      ShortRest(ws, q, size);
    }
    if pos - st.start == size {
      WithinFull(file, pos, st, size);
      return;
    }
    var st1 := QuoteIsRead(file, pos, st, ws[0], q, size);
    if |Escape(ws[0], q)| >= size {
      return;
    }
    WithinFullIf(file, pos + |first|, st1, size);
    if |ws| == 1 {
      assert file[pos + |first|] == [';'][0];
      CloseStop(file, pos + |first|, st1, size);
    } else if |Escape(ws[0], q)| + 1 < size {
      assert file[pos + |first|] == [' '][0];
      var st2 := CloseSpace(file, pos + |first|, st1, size);
      RenderIsRead(file, pos + |first| + 1, st2, ws[1..], q, size);
      assert st.args + [ws[0]] + ws[1..] == st.args + ws;
    }
  }

  lemma CloseStop(file: string, pos: nat, st: State, size: nat)
    requires pos < |file| && file[pos] == ';' && Closed(st)
    ensures pos - st.start != size ==> TokenWithin(file, pos, st, size) == Result(Ok, st.args, st.line, pos + 1)
  {
  }

  lemma CloseSpace(file: string, pos: nat, st: State, size: nat) returns (st': State)
    requires pos < |file| && file[pos] == ' ' && Closed(st) && pos - st.start != size
    ensures TokenWithin(file, pos, st, size) == TokenWithin(file, pos + 1, st', size)
    ensures Between(st') && st'.args == st.args && st'.start == st.start
  {
    st' := Step(file, pos, st).st;
    WithinGo(file, pos, st, st', size);
  }

  /** Every list of words can be written as a directive and read back. */
  lemma RoundTrip(before: string, ws: seq<string>, q: char, after: string, line: nat)
    requires ws != [] && IsQuote(q)
    ensures var r := Token(before + Render(ws, q) + after, |before|, Init(|before|, line));
            r.status == Ok && r.args == ws && r.pos == |before| + |Render(ws, q)|
  {
    hide Token, TokenWithin, Render, Quote;
    var file := before + Render(ws, q) + after;
    var size := LongEnough(ws, q);
    RoundTripWithin(before, ws, q, after, line, size);
    LimitOnlyRefuses(file, |before|, Init(|before|, line), size);
  }

  lemma {:induction false} LongEnough(ws: seq<string>, q: char) returns (size: nat)
    requires ws != []
    ensures size > 0 && Short(ws, q, size)
  {
    hide Quote;
    if |ws| == 1 {
      size := |Quote(ws[0], q)| + 1;
    } else {
      size := LongEnough(ws[1..], q);
      size := size + |Quote(ws[0], q)| + 1;
      ShortMore(ws[1..], q, size - |Quote(ws[0], q)| - 1, size);
      ShortRest(ws, q, size);
    }
  }

  lemma ShortMore(ws: seq<string>, q: char, small: nat, large: nat)
    requires ws != [] && Short(ws, q, small) && small <= large
    ensures Short(ws, q, large)
  {
    hide Quote;
  }

  /** With a buffer of a given size they are read back exactly if they fit; otherwise
      the directive is refused as too long. */
  lemma RoundTripWithin(before: string, ws: seq<string>, q: char, after: string, line: nat, size: nat)
    requires ws != [] && size > 0 && IsQuote(q)
    ensures var r := TokenWithin(before + Render(ws, q) + after, |before|, Init(|before|, line), size);
            if Short(ws, q, size) then r.status == Ok && r.args == ws && r.pos == |before| + |Render(ws, q)|
                else r.status == TooLong
  {
    hide TokenWithin, Render, Short;
    var file := before + Render(ws, q) + after;
    assert Here(file, |before|, Render(ws, q));
    RenderIsRead(file, |before|, Init(|before|, line), ws, q, size);
    assert [] + ws == ws;
  }

  // ------------------------------------------------------------- comments

  predicate InComment(st: State) { st.comment && Between(st.(comment := false)) }

  /** From pos on, n characters of a comment and then the line feed and other blanks, in
      all `len` characters; or the comment alone. */
  ghost predicate Remark(file: string, pos: nat, n: nat, len: nat) {
    && 0 < n <= len && pos + len <= |file| && file[pos] == '#'
    && (forall i :: pos <= i < pos + n ==> file[i] != '\n')
    && (n < len ==> file[pos + n] == '\n' && forall i :: pos + n <= i < pos + len ==> Blank(file[i]))
  }

  lemma RemarkStep(file: string, pos: nat, st: State) returns (st': State)
    requires pos < |file| && if st.comment then InComment(st) else Between(st) && (Blank(file[pos]) || file[pos] == '#')
    ensures Step(file, pos, st) == Go(st') && st'.args == st.args && st'.variable == st.variable
    ensures st'.start == if !st.comment && file[pos] == '#' then pos else st.start
    ensures if (if st.comment then file[pos] != '\n' else file[pos] == '#') then InComment(st') else Between(st')
  {
    hide Unescape;
    st' := Step(file, pos, st).st;
  }

  /** The remark after its first i characters. */
  lemma {:induction false} RemarkRest(file: string, pos: nat, n: nat, len: nat, i: nat, st: State, size: nat)
      returns (st': State)
    requires Remark(file, pos, n, len) && 0 < i <= len && i <= size && st.start == pos
    requires if i <= n then InComment(st) else Between(st)
    ensures st'.args == st.args && st'.start == pos && if n == len then InComment(st') else Between(st')
    ensures if len <= size then TokenWithin(file, pos + i, st, size) == TokenWithin(file, pos + len, st', size)
            else TokenWithin(file, pos + i, st, size).status == TooLong
    decreases len - i
  {
    hide Step, TokenWithin;
    if i == len {
      st' := st;
    } else {
      assert i == n ==> file[pos + n] == '\n';
      var st1 := RemarkStep(file, pos + i, st);
      if i == size {
        WithinFull(file, pos + i, st, size);
        st' := if n == len then st1.(comment := true) else st1.(comment := false);
      } else {
        WithinGo(file, pos + i, st, st1, size);
        st' := RemarkRest(file, pos, n, len, i + 1, st1, size);
      }
    }
  }

  /** A comment, with the blanks behind it, is skipped exactly if it is shorter than the
      buffer, or fills it at the end of the file; otherwise it is refused as a word that
      is too long. */
  lemma CommentExactly(file: string, pos: nat, st: State, n: nat, len: nat, size: nat) returns (st': State)
    requires Remark(file, pos, n, len) && Between(st) && st.start <= pos < st.start + size
    ensures st'.args == st.args && st'.start == pos && if n == len then InComment(st') else Between(st')
    ensures if len < size || (len == size && pos + len == |file|)
            then TokenWithin(file, pos, st, size) == TokenWithin(file, pos + len, st', size)
            else TokenWithin(file, pos, st, size).status == TooLong
  {
    hide Step, TokenWithin;
    var st1 := RemarkStep(file, pos, st);
    WithinGo(file, pos, st, st1, size);
    st' := RemarkRest(file, pos, n, len, 1, st1, size);
    if len == size && pos + len < |file| {
      WithinFull(file, pos + len, st', size);
    }
  }

  /** So a directive behind a comment is read back exactly if its words and the comment
      both fit the buffer. */
  lemma RemarkedRoundTrip(before: string, remark: string, n: nat, ws: seq<string>, q: char, after: string, line: nat,
                          size: nat)
    requires IsQuote(q) && ws != [] && size > 0 && n < |remark| && Remark(remark, 0, n, |remark|)
    ensures var r := TokenWithin(before + remark + Render(ws, q) + after, |before|, Init(|before|, line), size);
            if |remark| < size && Short(ws, q, size)
            then r.status == Ok && r.args == ws && r.pos == |before| + |remark| + |Render(ws, q)|
            else r.status == TooLong
  {
    hide TokenWithin, Render, Short;
    var file, pos, len := before + remark + Render(ws, q) + after, |before|, |remark|;
    assert forall i :: 0 <= i < len ==> file[pos + i] == remark[i];
    assert Here(file, pos + len, Render(ws, q));
    RenderedSome(ws, q);
    var st := Init(pos, line);
    assert Remark(file, pos, n, len) by {
      forall i | pos <= i < pos + len ensures file[i] == remark[i - pos] {
      }
    }
    var st' := CommentExactly(file, pos, st, n, len, size);
    if len < size {
      RenderIsRead(file, pos + len, st', ws, q, size);
      assert [] + ws == ws;
    }
  }

  lemma RenderedSome(ws: seq<string>, q: char)
    requires ws != []
    ensures |Render(ws, q)| > 0
  {
  }
}
