/**
 The tokenizer as src/core/ngx_conf_file.c runs it: over a buffer of fixed size
 that is refilled from the file, with the unfinished word moved to its front.
 */
module ConfReader {
  import opened Common
  import opened ConfTokens

  /** The system reads as much as it is asked for. */
  predicate ReadsAll(system: (int, int) -> int, at: int, size: int) { system(at, size) == size }

  /** Some read within the file falls short. */
  ghost predicate SomeReadFails(system: (int, int) -> int, length: int, room: int) {
    exists at, size :: 0 <= at < length && 0 < size <= room && !ReadsAll(system, at, size)
  }

  lemma ReadFails(system: (int, int) -> int, length: int, room: int, at: int, size: int)
    requires 0 <= at < length && 0 < size <= room && !ReadsAll(system, at, size)
    ensures SomeReadFails(system, length, room)
  {
  }

  lemma StepReads(file: string, pos: nat, st: State)
    requires pos < |file|
    ensures Step(file, pos, st).Stop? ==> Step(file, pos, st).status != ReadFailed
  {
  }

  class ConfReader {
    const file: string
    const buffer: array<char>
    var pos: nat                 // b->pos and b->last, as offsets into the buffer
    var last: nat
    var offset: nat              // how much of the file was read
    var line: nat
    var args: seq<string>

    /** The buffer holds the part of the file that was read last. */
    ghost predicate Valid()
      reads this, buffer
    {
      buffer.Length > 0 && pos <= last && Holds(offset - last, last)
    }

    ghost predicate Holds(base: int, n: int)
      reads buffer
    {
      && 0 <= n <= buffer.Length && 0 <= base <= base + n <= |file|
      && forall i :: 0 <= i < n ==> buffer[i] == file[base + i]
    }

    /** The position in the file. */
    function At(i: nat): int
      reads this
    {
      offset - last + i
    }

    constructor (file: string, size: nat)
      requires size > 0
      ensures Valid() && this.file == file && buffer.Length == size && At(pos) == 0 && line == 1 && fresh(buffer)
    {
      this.file := file;
      buffer := new char[size];
      pos, last, offset, line, args := 0, 0, 0, 1, [];
    }

    lemma InBuffer(i: nat)
      requires Valid() && i < last
      ensures 0 <= At(i) < |file| && buffer[i] == file[At(i)]
    {
    }

    /** More of the file, behind the word that begins at `start`; `system` is what
        a read returns for an offset and a size. */
    method Refill(start: nat, system: (int, int) -> int) returns (ok: bool)
      requires Valid() && start <= pos == last && offset < |file| && pos - start < buffer.Length
      modifies this`pos, this`last, this`offset, buffer
      ensures ok ==> Valid() && pos < last && At(pos) == old(At(pos)) && At(0) == old(At(start))
      ensures ok <==> ReadsAll(system, old(offset), Least(|file| - old(offset), buffer.Length - (old(pos) - start)))
    {
      hide Holds;
      var len := pos - start;
      Bounds();
      MoveDown(start, len);
      var size := |file| - offset;
      if size > buffer.Length - len {
        size := buffer.Length - len;
      }
      if system(offset, size) != size {
        return false;
      }
      ReadFile(len, size);
      pos := len;
      last := len + size;
      offset := offset + size;
      ok := true;
    }

    lemma Bounds()
      requires Valid()
      ensures last <= buffer.Length && last <= offset <= |file|
    {
    }

    /** ngx_memmove */
    method MoveDown(start: nat, len: nat)
      requires start + len == last && Holds(offset - last, last)
      modifies buffer
      ensures Holds(offset - len, len)
    {
      forall i | 0 <= i < len {
        buffer[i] := buffer[start + i];
      }
    }

    /** ngx_read_file */
    method ReadFile(len: nat, size: nat)
      requires len + size <= buffer.Length && offset + size <= |file| && Holds(offset - len, len)
      modifies buffer
      ensures Holds(offset - len, len + size)
    {
      forall i | len <= i < len + size {
        buffer[i] := file[offset - len + i];
      }
    }

    /** The word from `start` up to the character just read, with escapes resolved. */
    method CopyWord(start: nat) returns (word: string)
      requires Valid() && start < pos
      ensures word == Unescape(file, At(start), At(pos - 1))
    {
      hide Unescape;
      var src := start;
      word := [];
      InBuffer(pos - 1);
      while src < pos - 1
        invariant start <= src <= pos
        invariant word + Unescape(file, At(src), At(pos - 1)) == Unescape(file, At(start), At(pos - 1))
        decreases pos - src
      {
        InBuffer(src);
        InBuffer(src + 1);
        UnescapeStep(file, At(src), At(pos - 1));
        var ch, n := buffer[src], 1;
        if ch == '\\' {
          if buffer[src + 1] == '"' || buffer[src + 1] == '\'' || buffer[src + 1] == '\\' {
            ch, n := buffer[src + 1], 2;
          } else if buffer[src + 1] == 't' {
            ch, n := '\t', 2;
          } else if buffer[src + 1] == 'r' {
            ch, n := '\r', 2;
          } else if buffer[src + 1] == 'n' {
            ch, n := '\n', 2;
          }
        }
        Append(word, ch, Unescape(file, At(src + n), At(pos - 1)));
        word, src := word + [ch], src + n;
      }
      assert Unescape(file, At(src), At(pos - 1)) == [] by { UnescapeEnd(file, At(src), At(pos - 1)); }
    }

    /** The word begins in the buffer, before the character at i. */
    ghost predicate Within(st: State, i: nat)
      reads this
    {
      At(0) <= st.start <= At(i)
    }

    /** The character before pos is looked at where a word may begin. */
    method CharSpace(given: State) returns (next: Next)
      requires Valid() && 0 < pos
      ensures next == StepSpace(file, At(pos - 1), given)
    {
      InBuffer(pos - 1);
      var ch := buffer[pos - 1];
      if Blank(ch) {
        return Go(given);
      }
      var st := given.(start := At(pos - 1), startLine := given.line);
      match ch
      case ';' =>
        return Stop(if st.args == [] then Unexpected else Ok, st.args, st.line);
      case '{' =>
        return Stop(if st.args == [] then Unexpected else BlockStart, st.args, st.line);
      case '}' =>
        return Stop(if st.args != [] then Unexpected else BlockDone, st.args, st.line);
      case '#' =>
        return Go(st.(comment := true));
      case '\\' =>
        return Go(st.(quoted := true, lastSpace := false));
      case '"' =>
        return Go(st.(start := st.start + 1, dQuoted := true, lastSpace := false));
      case '\'' =>
        return Go(st.(start := st.start + 1, sQuoted := true, lastSpace := false));
      case _ =>
        return Go(st.(lastSpace := false));
    }

    /** The character before pos is looked at inside a word. */
    method CharWord(given: State) returns (next: Next)
      requires Valid() && 0 < pos && Within(given, pos - 1)
      ensures next == StepWord(file, At(pos - 1), given)
    {
      hide Unescape;
      InBuffer(pos - 1);
      var ch := buffer[pos - 1];
      if ch == '{' && given.variable {
        return Go(given);
      }
      var st := given.(variable := false);
      if ch == '\\' {
        return Go(st.(quoted := true));
      }
      if ch == '$' {
        return Go(st.(variable := true));
      }
      var found := false;
      if st.dQuoted {
        if ch == '"' {
          st, found := st.(dQuoted := false, needSpace := true), true;
        }
      } else if st.sQuoted {
        if ch == '\'' {
          st, found := st.(sQuoted := false, needSpace := true), true;
        }
      } else if Blank(ch) || ch == ';' || ch == '{' {
        st, found := st.(lastSpace := true), true;
      }
      if found {
        var word := CopyWord(st.start - At(0));
        st := st.(args := st.args + [word]);
        if ch == ';' {
          return Stop(Ok, st.args, st.line);
        }
        if ch == '{' {
          return Stop(BlockStart, st.args, st.line);
        }
      }
      return Go(st);
    }

    /** One character. */
    method Char(given: State) returns (next: Next)
      requires Valid() && pos < last && Within(given, pos)
      modifies this`pos
      ensures Valid() && pos == old(pos) + 1
      ensures next == Step(file, At(pos - 1), given)
    {
      hide StepSpace, StepWord;
      InBuffer(pos);
      var ch := buffer[pos];
      var st := given;
      pos := pos + 1;
      if ch == '\n' {
        st := st.(line := st.line + 1, comment := false);
      }
      if st.comment {
        return Go(st);
      }
      if st.quoted {
        return Go(st.(quoted := false));
      }
      if st.needSpace {
        if Blank(ch) {
          return Go(st.(lastSpace := true, needSpace := false));
        }
        if ch == ';' {
          return Stop(Ok, st.args, st.line);
        }
        if ch == '{' {
          return Stop(BlockStart, st.args, st.line);
        }
        if ch == ')' {
          st := st.(lastSpace := true, needSpace := false);
        } else {
          return Stop(Unexpected, st.args, st.line);
        }
      }
      if st.lastSpace {
        next := CharSpace(st);
      } else {
        next := CharWord(st);
      }
    }

    /** Sees to it that there is a character to look at, or ends the directive. */
    method More(st: State, system: (int, int) -> int) returns (stop: bool, code: Status)
      requires Valid() && Within(st, pos)
      modifies this, buffer
      ensures !stop ==> Valid() && Within(st, pos) && pos < last && At(pos) == old(At(pos))
      ensures !stop ==> At(pos) < |file| && At(pos) - st.start != buffer.Length
      ensures stop && code == ReadFailed ==> SomeReadFails(system, |file|, buffer.Length)
      ensures stop && code != ReadFailed ==> Valid() && 0 <= At(pos) <= |file|
      ensures stop && code != ReadFailed ==>
                Result(code, args, line, At(pos)) == TokenWithin(file, old(At(pos)), st, buffer.Length)
    {
      hide Step, Holds, TokenWithin, SomeReadFails, ReadsAll, Unescape;
      Bounds();
      TokenStep(file, At(pos), st, buffer.Length);
      if pos >= last {
        if offset >= |file| {
          args, line := st.args, st.line;
          return true, if |st.args| > 0 || !st.lastSpace then EarlyEnd else FileDone;
        }
        if At(pos) - st.start == buffer.Length {
          args, line := st.args, st.startLine;
          return true, TooLong;
        }
        ghost var at, size := offset, Least(|file| - offset, buffer.Length - (At(pos) - st.start));
        var ok := Refill(st.start - At(0), system);
        if !ok {
          ReadFails(system, |file|, buffer.Length, at, size);
          return true, ReadFailed;
        }
        Bounds();
      }
      return false, Ok;
    }

    /** ngx_conf_read_token */
    method ReadToken(system: (int, int) -> int) returns (status: Status)
      requires Valid()
      modifies this, buffer
      ensures status == ReadFailed ==> SomeReadFails(system, |file|, buffer.Length)
      ensures status != ReadFailed ==> Valid()
      ensures status != ReadFailed ==>
                Result(status, args, line, At(pos)) ==
                    TokenWithin(file, old(At(pos)), Init(old(At(pos)), old(line)), buffer.Length)
      ensures status != ReadFailed && status != TooLong ==>
                0 <= old(At(pos)) <= At(pos) <= |file| && line == old(line) + Feeds(file[old(At(pos))..At(pos)])
    {
      hide Step, Holds, TokenWithin, SomeReadFails, ReadsAll, Feeds;
      Bounds();
      LinesRead(file, At(pos), line, buffer.Length);
      var st := Init(At(pos), line);
      ghost var goal := TokenWithin(file, At(pos), st, buffer.Length);
      while true
        invariant Valid() && Within(st, pos) && last <= buffer.Length && last <= offset <= |file|
        invariant goal == TokenWithin(file, At(pos), st, buffer.Length)
        decreases |file| - At(pos)
      {
        var stop, code := More(st, system);
        if stop {
          return code;
        }
        TokenStep(file, At(pos), st, buffer.Length);
        StartNear(file, At(pos), st);
        StepReads(file, At(pos), st);
        Bounds();
        var next := Char(st);
        match next
        case Stop(code, words, at) =>
          args, line := words, at;
          return code;
        case Go(st') =>
          st := st';
      }
    }
  }

  lemma LinesRead(file: string, pos: nat, line: nat, size: nat)
    requires pos <= |file|
    ensures var r := TokenWithin(file, pos, Init(pos, line), size);
            r.status != TooLong ==> pos <= r.pos <= |file| && r.line == line + Feeds(file[pos..r.pos])
  {
    hide TokenWithin;
    assert file[pos..pos] == [];
    LinesCounted(file, pos, line, pos, Init(pos, line), size);
  }

  lemma TokenStep(file: string, pos: nat, st: State, size: nat)
    requires pos <= |file|
    ensures TokenWithin(file, pos, st, size) ==
              if pos == |file| then
                Result(if st.args != [] || !st.lastSpace then EarlyEnd else FileDone, st.args, st.line, pos)
              else if pos - st.start == size then Result(TooLong, st.args, st.startLine, pos)
              else if Step(file, pos, st).Stop?
                  then Result(Step(file, pos, st).status, Step(file, pos, st).args, Step(file, pos, st).line, pos + 1)
              else TokenWithin(file, pos + 1, Step(file, pos, st).st, size)
  {
    hide Step;
  }

  lemma Append(a: string, ch: char, b: string)
    ensures (a + [ch]) + b == a + ([ch] + b)
  {
  }

  lemma UnescapeEnd(file: string, src: nat, end: nat)
    requires end < |file| && src >= end
    ensures Unescape(file, src, end) == []
  {
  }

  lemma UnescapeStep(file: string, src: nat, end: nat)
    requires src < end < |file|
    ensures var c := file[src + 1];
            Unescape(file, src, end) ==
              if file[src] != '\\' then [file[src]] + Unescape(file, src + 1, end)
              else if c == '"' || c == '\'' || c == '\\' then [c] + Unescape(file, src + 2, end)
              else if c == 't' then ['\t'] + Unescape(file, src + 2, end)
              else if c == 'r' then ['\r'] + Unescape(file, src + 2, end)
              else if c == 'n' then ['\n'] + Unescape(file, src + 2, end)
              else ['\\'] + Unescape(file, src + 1, end)
  {
  }
}
