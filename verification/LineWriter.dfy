/** The line-buffering log writer. Redaction of a line is any function: nothing here depends
    on what it does. A string holds one char per byte. */
module LineWriter {
  import opened Basics

  ghost predicate NoNewline(s: string) {
    forall k :: 0 <= k < |s| ==> s[k] != '\n'
  }

  /** What follows the last newline of a stream. */
  function Tail(s: string): string {
    if s == "" then ""
    else if s[|s| - 1] == '\n' then ""
    else Tail(s[..|s| - 1]) + [s[|s| - 1]]
  }

  /** The complete lines of a stream, each with its newline. */
  function Lines(s: string): seq<string> {
    if s == "" then []
    else if s[|s| - 1] == '\n' then Lines(s[..|s| - 1]) + [Tail(s[..|s| - 1]) + "\n"]
    else Lines(s[..|s| - 1])
  }

  function Concat(parts: seq<string>): string {
    if parts == [] then "" else Concat(parts[..|parts| - 1]) + parts[|parts| - 1]
  }

  function RedactEach(redact: string -> string, lines: seq<string>): string {
    if lines == [] then ""
    else RedactEach(redact, lines[..|lines| - 1]) + redact(lines[|lines| - 1])
  }

  // ---- Lines and tail ---------------------------------------------------------------------

  lemma {:induction false} TailHasNoNewline(s: string)
    ensures NoNewline(Tail(s))
  {
    if s != "" && s[|s| - 1] != '\n' {
      TailHasNoNewline(s[..|s| - 1]);
    }
  }

  lemma {:induction false} NoLineYet(s: string)
    requires NoNewline(s)
    ensures Lines(s) == [] && Tail(s) == s
  {
    if s != "" {
      NoLineYet(s[..|s| - 1]);
    }
  }

  /** Cutting into lines loses nothing. */
  lemma {:induction false} LinesLoseNothing(s: string)
    ensures Concat(Lines(s)) + Tail(s) == s
  {
    if s != "" {
      LinesLoseNothing(s[..|s| - 1]);
      OneMore(s, Lines(s[..|s| - 1]), Tail(s[..|s| - 1]));
    }
  }

  lemma OneMore(s: string, lines: seq<string>, tail: string)
    requires s != "" && Concat(lines) + tail == s[..|s| - 1]
    ensures Concat(lines) + (tail + [s[|s| - 1]]) == s
    ensures Concat(lines + [tail + [s[|s| - 1]]]) + "" == s
  {
    assert (lines + [tail + [s[|s| - 1]]])[..|lines|] == lines;
  }

  /** Each line ends in its newline and holds no other. */
  lemma {:induction false} EachIsOneLine(s: string, k: nat)
    requires k < |Lines(s)|
    ensures var line := Lines(s)[k]; line != "" && line[|line| - 1] == '\n' && NoNewline(line[..|line| - 1])
  {
    var front := s[..|s| - 1];
    if k < |Lines(front)| {
      EachIsOneLine(front, k);
    } else {
      TailHasNoNewline(front);
      assert (Tail(front) + "\n")[..|Tail(front)|] == Tail(front);
    }
  }

  lemma LastChar(a: string, b: string)
    requires b != ""
    ensures Tail(a + b) == if b[|b| - 1] == '\n' then "" else Tail(a + b[..|b| - 1]) + [b[|b| - 1]]
    ensures Lines(a + b) == Lines(a + b[..|b| - 1])
                            + if b[|b| - 1] == '\n' then [Tail(a + b[..|b| - 1]) + "\n"] else []
  {
    assert (a + b)[..|a + b| - 1] == a + b[..|b| - 1];
  }

  /** A stream may be cut anywhere: what is left over goes in front of what comes next. */
  lemma {:induction false} CutAnywhere(a: string, b: string)
    ensures Lines(a + b) == Lines(a) + Lines(Tail(a) + b)
    ensures Tail(a + b) == Tail(Tail(a) + b)
  {
    if b == "" {
      TailHasNoNewline(a);
      NoLineYet(Tail(a));
      assert a + b == a && Tail(a) + b == Tail(a);
    } else {
      var front := b[..|b| - 1];
      CutAnywhere(a, front);
      LastChar(a, b);
      LastChar(Tail(a), b);
    }
  }

  lemma OneLine(p: string)
    requires NoNewline(p)
    ensures Lines(p + "\n") == [p + "\n"] && Tail(p + "\n") == ""
  {
    NoLineYet(p);
    assert (p + "\n")[..|p|] == p;
  }

  /** The first newline of `b` is at `i`. */
  ghost predicate FirstNewlineAt(b: string, i: nat) {
    i < |b| && b[i] == '\n' && NoNewline(b[..i])
  }

  /** The first line comes off the front. */
  lemma FirstLine(s: string, i: nat)
    requires FirstNewlineAt(s, i)
    ensures Lines(s) == [s[..i + 1]] + Lines(s[i + 1..])
    ensures Tail(s) == Tail(s[i + 1..])
  {
    var line, rest := s[..i + 1], s[i + 1..];
    assert line == s[..i] + "\n" && s == line + rest;
    OneLine(s[..i]);
    CutAnywhere(line, rest);
    assert "" + rest == rest;
  }

  // ---- The writer -----------------------------------------------------------------------------

  datatype State = State(buf: string, dst: string)

  /** One Write to a destination that does not fail. */
  function Wrote(redact: string -> string, st: State, p: string): State {
    State(Tail(st.buf + p), st.dst + RedactEach(redact, Lines(st.buf + p)))
  }

  /** `buf` is what is left of `s` after `k` of its lines. */
  ghost predicate Remaining(s: string, buf: string, k: nat) {
    k <= |Lines(s)| && Lines(buf) == Lines(s)[k..] && Tail(buf) == Tail(s)
  }

  /** What the first `k` lines of `s` put out. */
  ghost function Emitted(redact: string -> string, s: string, k: nat): string
    requires k <= |Lines(s)|
  {
    RedactEach(redact, Lines(s)[..k])
  }

  lemma Peel<T>(all: seq<T>, k: nat, x: T, rest: seq<T>)
    requires k <= |all| && all[k..] == [x] + rest
    ensures k < |all| && all[k + 1..] == rest && all[..k + 1] == all[..k] + [x]
  {
    assert all[k] == all[k..][0];
    assert all[k + 1..] == all[k..][1..];
  }

  lemma NextLine(redact: string -> string, s: string, buf: string, k: nat, i: nat)
    requires Remaining(s, buf, k) && FirstNewlineAt(buf, i)
    ensures k < |Lines(s)| && Remaining(s, buf[i + 1..], k + 1)
    ensures Emitted(redact, s, k + 1) == Emitted(redact, s, k) + redact(buf[..i + 1])
  {
    var line := buf[..i + 1];
    FirstLine(buf, i);
    Peel(Lines(s), k, line, Lines(buf[i + 1..]));
    assert (Lines(s)[..k] + [line])[..k] == Lines(s)[..k];
  }

  /** The writer began with `before` and the stream `s`, and has put out `k` lines of it. */
  ghost predicate Midway(redact: string -> string, s: string, before: string, st: State, k: nat) {
    Remaining(s, st.buf, k) && st.dst == before + Emitted(redact, s, k)
  }

  lemma NothingOut(redact: string -> string, s: string, before: string)
    ensures Midway(redact, s, before, State(s, before), 0)
  {
  }

  lemma NextLineOut(redact: string -> string, s: string, before: string, st: State, k: nat, i: nat)
    requires Midway(redact, s, before, st, k) && FirstNewlineAt(st.buf, i)
    ensures k < |Lines(s)| && Remaining(s, st.buf[i + 1..], k + 1)
    ensures Midway(redact, s, before, State(st.buf[i + 1..], st.dst + redact(st.buf[..i + 1])), k + 1)
  {
    NextLine(redact, s, st.buf, k, i);
    assert st.dst + redact(st.buf[..i + 1])
        == before + (Emitted(redact, s, k) + redact(st.buf[..i + 1]));
  }

  lemma AllOut(redact: string -> string, s: string, before: string, st: State, k: nat)
    requires Midway(redact, s, before, st, k) && NoNewline(st.buf)
    ensures k == |Lines(s)|
    ensures st == State(Tail(s), before + RedactEach(redact, Lines(s)))
  {
    NoLineYet(st.buf);
    assert Lines(s)[..k] == Lines(s);
  }

  /** `bytes.IndexByte` for the newline. */
  method IndexNewline(b: string) returns (i: int)
    ensures -1 <= i < |b|
    ensures if i < 0 then NoNewline(b) else FirstNewlineAt(b, i)
  {
    for k := 0 to |b|
      invariant NoNewline(b[..k])
    {
      if b[k] == '\n' {
        return k;
      }
    }
    return -1;
  }

  class Writer {
    const redactLine: string -> string
    var buf: string
    var dst: string

    constructor (redactLine: string -> string)
      ensures this.redactLine == redactLine && buf == "" && dst == ""
    {
      this.redactLine := redactLine;
      buf, dst := "", "";
    }

    /** `failing` is the write to the destination that fails during this call, if any; a failed
        write passes nothing on. The line it was for is gone, everything after it is kept. */
    method Write(p: string, failing: Option<nat>) returns (n: nat, ok: bool)
      modifies this`buf, this`dst
      ensures n == |p|
      ensures ok <==> failing.None? || failing.value >= |Lines(old(buf) + p)|
      ensures ok ==> State(buf, dst) == Wrote(redactLine, State(old(buf), old(dst)), p)
      ensures !ok ==>
        && Remaining(old(buf) + p, buf, failing.value + 1)
        && dst == old(dst) + Emitted(redactLine, old(buf) + p, failing.value)
    {
      n := |p|;
      ghost var before := dst;
      buf := buf + p;
      ghost var s := buf;
      var k: nat := 0;
      NothingOut(redactLine, s, before);
      while true
        invariant Midway(redactLine, s, before, State(buf, dst), k)
        invariant failing.None? || k <= failing.value
        decreases |buf|
      {
        var i := IndexNewline(buf);
        if i < 0 {
          break;
        }
        NextLineOut(redactLine, s, before, State(buf, dst), k, i);
        var line := buf[..i + 1];
        buf := buf[i + 1..];
        if failing == Some(k) {
          return n, false;
        }
        dst := dst + redactLine(line);
        k := k + 1;
      }
      AllOut(redactLine, s, before, State(buf, dst), k);
      return n, true;
    }
  }

  // ---- Chunk independence -----------------------------------------------------------------------

  lemma {:induction false} RedactEachConcat(redact: string -> string, xs: seq<string>, ys: seq<string>)
    ensures RedactEach(redact, xs + ys) == RedactEach(redact, xs) + RedactEach(redact, ys)
  {
    if ys == [] {
      assert xs + ys == xs;
    } else {
      assert (xs + ys)[..|xs + ys| - 1] == xs + ys[..|ys| - 1];
      RedactEachConcat(redact, xs, ys[..|ys| - 1]);
    }
  }

  function WroteAll(redact: string -> string, chunks: seq<string>): State {
    if chunks == [] then State("", "")
    else Wrote(redact, WroteAll(redact, chunks[..|chunks| - 1]), chunks[|chunks| - 1])
  }

  /** However a byte stream is split into Write calls, the destination has received the redacted
      complete lines of the stream, and the buffer holds its newline-free rest. */
  lemma {:induction false} ChunkIndependent(redact: string -> string, chunks: seq<string>)
    ensures WroteAll(redact, chunks)
            == State(Tail(Concat(chunks)), RedactEach(redact, Lines(Concat(chunks))))
  {
    if chunks != [] {
      var before, last := Concat(chunks[..|chunks| - 1]), chunks[|chunks| - 1];
      ChunkIndependent(redact, chunks[..|chunks| - 1]);
      CutAnywhere(before, last);
      RedactEachConcat(redact, Lines(before), Lines(Tail(before) + last));
    }
  }
}
