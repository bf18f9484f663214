/** The log redactor for long base64- or hex-looking runs. A string holds one char per byte. */
module RedactBlobs {

  const MIN_BLOB_LEN := 120
  const MARK := "[REDACTED_BLOB]"

  predicate IsBlobChar(c: char) {
    || 'A' <= c <= 'Z' || 'a' <= c <= 'z' || '0' <= c <= '9'
    || c == '+' || c == '/' || c == '=' || c == '_' || c == '-'
  }

  lemma UpperCase(c: char)
    ensures 'A' <= c <= 'Z' <==> c in "ABCDEFGHIJKLMNOPQRSTUVWXYZ"
  {
    if 'A' <= c <= 'Z' {
      assert "ABCDEFGHIJKLMNOPQRSTUVWXYZ"[c as int - 'A' as int] == c;
    }
  }

  lemma LowerCase(c: char)
    ensures 'a' <= c <= 'z' <==> c in "abcdefghijklmnopqrstuvwxyz"
  {
    if 'a' <= c <= 'z' {
      assert "abcdefghijklmnopqrstuvwxyz"[c as int - 'a' as int] == c;
    }
  }

  /** The alphabet of a run, written out. */
  lemma BlobAlphabet(c: char)
    ensures IsBlobChar(c) <==>
            || c in "ABCDEFGHIJKLMNOPQRSTUVWXYZ" || c in "abcdefghijklmnopqrstuvwxyz"
            || c in "0123456789" || c in "+/=_-"
  {
    UpperCase(c);
    LowerCase(c);
    if '0' <= c <= '9' {
      assert "0123456789"[c as int - '0' as int] == c;
    }
    assert "+/=_-"[0] == '+' && "+/=_-"[1] == '/' && "+/=_-"[2] == '=' && "+/=_-"[3] == '_' && "+/=_-"[4] == '-';
  }

  ghost predicate AllBlob(s: string, from: nat, to: nat)
    requires to <= |s|
  {
    forall k :: from <= k < to ==> IsBlobChar(s[k])
  }

  /** How many blob characters `s` starts with. */
  function LeadingRun(s: string): (n: nat)
    ensures n <= |s|
  {
    if s == "" || !IsBlobChar(s[0]) then 0 else 1 + LeadingRun(s[1..])
  }

  /** The redacted string, run by run. */
  function Redacted(s: string): string {
    if s == "" then ""
    else
      var n := LeadingRun(s);
      if n == 0 then [s[0]] + Redacted(s[1..])
      else (if n >= MIN_BLOB_LEN then MARK else s[..n]) + Redacted(s[n..])
  }

  lemma {:induction false} LeadingRunMeans(s: string)
    ensures forall k :: 0 <= k < LeadingRun(s) ==> IsBlobChar(s[k])
    ensures LeadingRun(s) < |s| ==> !IsBlobChar(s[LeadingRun(s)])
  {
    if s != "" && IsBlobChar(s[0]) {
      LeadingRunMeans(s[1..]);
    }
  }

  lemma {:induction false} LeadingRunIs(s: string, n: nat)
    requires n <= |s|
    requires forall k :: 0 <= k < n ==> IsBlobChar(s[k])
    requires n < |s| ==> !IsBlobChar(s[n])
    ensures LeadingRun(s) == n
  {
    if n > 0 {
      LeadingRunIs(s[1..], n - 1);
    }
  }

  /** What one closed run contributes. */
  function Contribution(run: string): string {
    if |run| >= MIN_BLOB_LEN then MARK else run
  }

  lemma RunFirst(run: string, rest: string)
    requires run != "" && AllBlob(run, 0, |run|) && (rest != "" ==> !IsBlobChar(rest[0]))
    ensures Redacted(run + rest) == Contribution(run) + Redacted(rest)
  {
    LeadingRunIs(run + rest, |run|);
    assert (run + rest)[..|run|] == run && (run + rest)[|run|..] == rest;
  }

  /** What the run s[from..to], ended by a non-blob character or the end, contributes. */
  lemma RunRedacted(s: string, from: nat, to: nat)
    requires from < to <= |s| && AllBlob(s, from, to)
    requires to < |s| ==> !IsBlobChar(s[to])
    ensures Redacted(s[from..]) == Contribution(s[from..to]) + Redacted(s[to..])
  {
    RunFirst(s[from..to], s[to..]);
    assert s[from..] == s[from..to] + s[to..];
  }

  lemma PlainRedacted(s: string, i: nat)
    requires i < |s| && !IsBlobChar(s[i])
    ensures Redacted(s[i..]) == [s[i]] + Redacted(s[i + 1..])
  {
    LeadingRunIs(s[i..], 0);
    assert s[i..][1..] == s[i + 1..];
  }

  ghost predicate Redacts(s: string, out: string) {
    out == Redacted(s)
  }

  /** The scanner is at `i`: `b` is what goes in front of the redaction of s[done..], where the
      run that reaches up to `i` began at `done`, if there is one. */
  ghost predicate Scanning(s: string, b: string, done: nat, i: nat) {
    && done <= i <= |s|
    && AllBlob(s, done, i)
    && forall rest :: Redacts(s[done..], rest) ==> Redacts(s, b + rest)
  }

  lemma ScanStart(s: string)
    ensures Scanning(s, "", 0, 0)
  {
    assert s[0..] == s;
    forall rest | Redacts(s, rest)
      ensures Redacts(s, "" + rest)
    {
      assert "" + rest == rest;
    }
  }

  lemma ScanEnd(s: string, b: string)
    requires Scanning(s, b, |s|, |s|)
    ensures b == Redacted(s)
  {
    assert s[|s|..] == "" && Redacts("", "");
    assert b + "" == b;
  }

  lemma ScanBlob(s: string, b: string, done: nat, i: nat)
    requires Scanning(s, b, done, i) && i < |s| && IsBlobChar(s[i])
    ensures Scanning(s, b, done, i + 1)
  {
  }

  lemma ScanClose(s: string, b: string, done: nat, i: nat)
    requires Scanning(s, b, done, i) && done < i && (i < |s| ==> !IsBlobChar(s[i]))
    ensures Scanning(s, b + Contribution(s[done..i]), i, i)
  {
    var piece := Contribution(s[done..i]);
    forall rest | Redacts(s[i..], rest)
      ensures Redacts(s, b + piece + rest)
    {
      RunRedacted(s, done, i);
      assert Redacts(s[done..], piece + rest);
      assert b + (piece + rest) == b + piece + rest;
    }
  }

  lemma ScanPlain(s: string, b: string, i: nat)
    requires Scanning(s, b, i, i) && i < |s| && !IsBlobChar(s[i])
    ensures Scanning(s, b + [s[i]], i + 1, i + 1)
  {
    forall rest | Redacts(s[i + 1..], rest)
      ensures Redacts(s, b + [s[i]] + rest)
    {
      PlainRedacted(s, i);
      assert Redacts(s[i..], [s[i]] + rest);
      assert b + ([s[i]] + rest) == b + [s[i]] + rest;
    }
  }

  /** The daemon's scanner, with `runStart` marking an open run. */
  method RedactLongBlobs(s: string) returns (b: string)
    ensures b == Redacted(s)
  {
    b := "";
    var runStart := -1;
    ghost var done := 0;
    ScanStart(s);
    for i := 0 to |s|
      invariant 0 <= done <= i
      invariant runStart == if done < i then done else -1
      invariant Scanning(s, b, done, i)
    {
      var c := s[i];
      if IsBlobChar(c) {
        ScanBlob(s, b, done, i);
        if runStart == -1 {
          runStart := i;
        }
        continue;
      }
      if runStart != -1 {
        ScanClose(s, b, done, i);
        if i - runStart >= MIN_BLOB_LEN {
          b := b + MARK;
        } else {
          b := b + s[runStart..i];
        }
        runStart := -1;
      }
      ScanPlain(s, b, i);
      b := b + [c];
      done := i + 1;
    }
    if runStart != -1 {
      ScanClose(s, b, done, |s|);
      if |s| - runStart >= MIN_BLOB_LEN {
        b := b + MARK;
      } else {
        assert s[runStart..] == s[runStart..|s|];
        b := b + s[runStart..];
      }
    }
    ScanEnd(s, b);
  }

  // ---- What redaction means ------------------------------------------------------------------

  /** No 120 blob characters in a row, wherever one starts counting. */
  ghost predicate NoLongRun(s: string) {
    forall i :: 0 <= i <= |s| ==> LeadingRun(s[i..]) < 120
  }

  lemma {:induction false} LeadingRunConcat(a: string, b: string)
    ensures LeadingRun(a + b) == if LeadingRun(a) < |a| then LeadingRun(a) else |a| + LeadingRun(b)
  {
    var n := LeadingRun(a);
    LeadingRunMeans(a);
    LeadingRunMeans(b);
    LeadingRunIs(a + b, if n < |a| then n else |a| + LeadingRun(b));
  }

  /** A piece that ends a run, put before a string that does not continue one. */
  lemma NoLongRunConcat(a: string, b: string)
    requires NoLongRun(b) && LeadingRun(b) == 0
    requires forall i :: 0 <= i <= |a| ==> LeadingRun(a[i..]) < MIN_BLOB_LEN
    ensures NoLongRun(a + b)
  {
    forall i | 0 <= i <= |a + b|
      ensures LeadingRun((a + b)[i..]) < MIN_BLOB_LEN
    {
      if i <= |a| {
        assert (a + b)[i..] == a[i..] + b;
        LeadingRunConcat(a[i..], b);
      } else {
        assert (a + b)[i..] == b[i - |a|..];
      }
    }
  }

  lemma ShortRunsInside(a: string, c: char, b: string)
    requires !IsBlobChar(c) && NoLongRun(b)
    ensures NoLongRun([c] + b)
  {
    forall i | 0 <= i <= |[c] + b|
      ensures LeadingRun(([c] + b)[i..]) < MIN_BLOB_LEN
    {
      if i == 0 {
        assert ([c] + b)[0..] == [c] + b;
        LeadingRunIs([c] + b, 0);
      } else {
        assert ([c] + b)[i..] == b[i - 1..];
      }
    }
  }

  lemma {:induction false} OutputHasNoLongRun(s: string)
    ensures NoLongRun(Redacted(s))
    ensures LeadingRun(s) == 0 ==> LeadingRun(Redacted(s)) == 0
  {
    var n := LeadingRun(s);
    if s == "" {
    } else if n == 0 {
      OutputHasNoLongRun(s[1..]);
      ShortRunsInside("", s[0], Redacted(s[1..]));
      LeadingRunIs(Redacted(s), 0);
    } else {
      OutputHasNoLongRun(s[n..]);
      LeadingRunMeans(s);
      LeadingRunIs(s[n..], 0);
      NoLongRunConcat(if n >= MIN_BLOB_LEN then MARK else s[..n], Redacted(s[n..]));
    }
  }

  lemma SuffixHasNoLongRun(s: string, k: nat)
    requires NoLongRun(s) && k <= |s|
    ensures NoLongRun(s[k..])
  {
    forall i | 0 <= i <= |s[k..]|
      ensures LeadingRun(s[k..][i..]) < MIN_BLOB_LEN
    {
      assert s[k..][i..] == s[k + i..];
    }
  }

  lemma {:induction false} UnchangedWithoutLongRun(s: string)
    requires NoLongRun(s)
    ensures Redacted(s) == s
  {
    if s != "" {
      var n := LeadingRun(s);
      assert n < MIN_BLOB_LEN by {
        assert s[0..] == s;
      }
      if n == 0 {
        SuffixHasNoLongRun(s, 1);
        UnchangedWithoutLongRun(s[1..]);
      } else {
        SuffixHasNoLongRun(s, n);
        UnchangedWithoutLongRun(s[n..]);
      }
    }
  }

  /** Redaction changes exactly the strings that hold a long run. */
  lemma RedactedIffLongRun(s: string)
    ensures Redacted(s) == s <==> NoLongRun(s)
  {
    OutputHasNoLongRun(s);
    if NoLongRun(s) {
      UnchangedWithoutLongRun(s);
    }
  }

  lemma RedactionIdempotent(s: string)
    ensures Redacted(Redacted(s)) == Redacted(s)
  {
    OutputHasNoLongRun(s);
    RedactedIffLongRun(Redacted(s));
  }

  // ---- An independent description ------------------------------------------------------------

  function Flatten(ts: seq<string>): string {
    if ts == [] then "" else ts[0] + Flatten(ts[1..])
  }

  predicate IsRun(t: string) {
    t != "" && forall k :: 0 <= k < |t| ==> IsBlobChar(t[k])
  }

  /** `s` cut into single non-blob characters and maximal blob runs. */
  ghost predicate IsSplit(ts: seq<string>, s: string) {
    && Flatten(ts) == s
    && (forall i :: 0 <= i < |ts| ==> IsRun(ts[i]) || (|ts[i]| == 1 && !IsBlobChar(ts[i][0])))
    && (forall i :: 0 < i < |ts| ==> !(IsRun(ts[i - 1]) && IsRun(ts[i])))
  }

  function Replace(t: string): string {
    if IsRun(t) && |t| >= 120 then "[REDACTED_BLOB]" else t
  }

  function ReplaceAll(ts: seq<string>): seq<string> {
    if ts == [] then [] else [Replace(ts[0])] + ReplaceAll(ts[1..])
  }

  /** Everything outside the long runs survives, in place; each long run becomes one mark. */
  lemma {:induction false} OnlyLongRunsReplaced(ts: seq<string>, s: string)
    requires IsSplit(ts, s)
    ensures Redacted(s) == Flatten(ReplaceAll(ts))
  {
    if ts != [] {
      var rest := Flatten(ts[1..]);
      assert IsSplit(ts[1..], rest);
      OnlyLongRunsReplaced(ts[1..], rest);
      HeadRedacted(ts, s, rest);
    }
  }

  /** Every string has such a cut, so the description covers every input. */
  lemma {:induction false} SplitExists(s: string) returns (ts: seq<string>)
    ensures IsSplit(ts, s)
    ensures ts != [] && LeadingRun(s) == 0 ==> !IsRun(ts[0])
  {
    if s == "" {
      ts := [];
    } else {
      var n := LeadingRun(s);
      LeadingRunMeans(s);
      var k := if n == 0 then 1 else n;
      var rest := SplitExists(s[k..]);
      ts := [s[..k]] + rest;
      assert ts[1..] == rest && s == s[..k] + s[k..];
      if n > 0 {
        LeadingRunIs(s[n..], 0);
      }
    }
  }

  lemma HeadRedacted(ts: seq<string>, s: string, rest: string)
    requires IsSplit(ts, s) && ts != [] && rest == Flatten(ts[1..])
    ensures Redacted(s) == Replace(ts[0]) + Redacted(rest)
  {
    var n := |ts[0]|;
    assert s[..n] == ts[0] && s[n..] == rest;
    if IsRun(ts[0]) {
      if ts[1..] != [] {
        assert !IsRun(ts[1]);
        assert rest == ts[1] + Flatten(ts[1..][1..]);
      }
      LeadingRunIs(s, n);
    } else {
      LeadingRunIs(s, 0);
    }
  }
}
