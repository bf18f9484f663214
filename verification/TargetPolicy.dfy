/** The focused-target policy. Trimming and lower-casing are Unicode library functions and are
    left arbitrary: every statement holds for any such pair. */
module TargetPolicy {
  import opened Basics

  datatype Text = Text(trim: string -> string, lower: string -> string)

  // ---- Normalisation ----------------------------------------------------------------------

  predicate IsSeparator(c: char) {
    c == '\\' || c == '/'
  }

  predicate NoSeparator(s: string) {
    forall k :: 0 <= k < |s| ==> s[k] != '\\' && s[k] != '/'
  }

  function LastIndexOf(s: string, c: char): (i: int)
    ensures -1 <= i < |s|
    ensures i >= 0 ==> s[i] == c
    ensures forall k :: i < k < |s| ==> s[k] != c
  {
    if s == "" then -1
    else if s[|s| - 1] == c then |s| - 1
    else LastIndexOf(s[..|s| - 1], c)
  }

  /** The file name at the end of a path. */
  function BaseName(s: string): string {
    if s == "" then ""
    else if IsSeparator(s[|s| - 1]) then ""
    else BaseName(s[..|s| - 1]) + [s[|s| - 1]]
  }

  function TrimSuffix(s: string, suffix: string): string {
    if |suffix| <= |s| && s[|s| - |suffix|..] == suffix then s[..|s| - |suffix|] else s
  }

  function ProcName(t: Text, s: string): string {
    var low := t.lower(t.trim(s));
    if low == "" then "" else TrimSuffix(TrimSuffix(t.trim(BaseName(low)), ".app"), ".exe")
  }

  function Title(t: Text, s: string): string {
    t.lower(t.trim(s))
  }

  /** Stripping through a separator keeps the base name. */
  lemma {:induction false} BaseNameOfSuffix(s: string, i: nat)
    requires i < |s| && IsSeparator(s[i])
    ensures BaseName(s[i + 1..]) == BaseName(s)
  {
    var last := |s| - 1;
    if i < last && !IsSeparator(s[last]) {
      assert s[i + 1..][..last - i - 1] == s[..last][i + 1..];
      BaseNameOfSuffix(s[..last], i);
    }
  }

  lemma {:induction false} BaseNameOfBase(s: string)
    requires NoSeparator(s)
    ensures BaseName(s) == s
  {
    if s != "" {
      BaseNameOfBase(s[..|s| - 1]);
    }
  }

  /** `b` is the longest suffix of `s` without a separator. */
  ghost predicate LongestCleanSuffix(s: string, b: string) {
    && NoSeparator(b) && |b| <= |s| && b == s[|s| - |b|..]
    && (|b| < |s| ==> s[|s| - |b| - 1] == '\\' || s[|s| - |b| - 1] == '/')
  }

  lemma SuffixExtended(front: string, b: string, c: char)
    requires LongestCleanSuffix(front, b) && !IsSeparator(c)
    ensures LongestCleanSuffix(front + [c], b + [c])
  {
    var s := front + [c];
    assert b + [c] == s[|s| - |b + [c]|..];
  }

  lemma {:induction false} BaseNameIsLongestCleanSuffix(s: string)
    ensures LongestCleanSuffix(s, BaseName(s))
  {
    if s != "" && !IsSeparator(s[|s| - 1]) {
      var front := s[..|s| - 1];
      BaseNameIsLongestCleanSuffix(front);
      SuffixExtended(front, BaseName(front), s[|s| - 1]);
      assert s == front + [s[|s| - 1]];
    }
  }

  method NormalizeProcName(t: Text, name: string) returns (s: string)
    ensures s == ProcName(t, name)
  {
    s := t.trim(name);
    s := t.lower(s);
    if s == "" {
      return "";
    }
    ghost var low := s;
    while true
      invariant BaseName(s) == BaseName(low)
      decreases |s|
    {
      var i1 := LastIndexOf(s, '\\');
      var i2 := LastIndexOf(s, '/');
      var i := i1;
      if i2 > i {
        i := i2;
      }
      if i < 0 {
        break;
      }
      BaseNameOfSuffix(s, i);
      s := s[i + 1..];
    }
    BaseNameOfBase(s);
    s := t.trim(s);
    s := TrimSuffix(s, ".app");
    s := TrimSuffix(s, ".exe");
  }

  datatype Form = AsProc | AsTitle

  function Norm(t: Text, form: Form, s: string): string {
    if form.AsProc? then ProcName(t, s) else Title(t, s)
  }

  /** `n` is the normal form of some entry and not blank. */
  ghost predicate Lists(t: Text, form: Form, entries: seq<string>, n: string) {
    n != "" && exists x :: x in entries && Norm(t, form, x) == n
  }

  ghost predicate NoDuplicates(s: seq<string>) {
    forall i, j :: 0 <= i < j < |s| ==> s[i] != s[j]
  }

  method NormalizeProcList(t: Text, entries: seq<string>) returns (out: seq<string>)
    ensures forall n :: n in out <==> Lists(t, AsProc, entries, n)
    ensures NoDuplicates(out)
  {
    out := [];
    var seen: set<string> := {};
    for k := 0 to |entries|
      invariant forall n :: n in seen <==> n in out
      invariant forall n :: n in out <==> Lists(t, AsProc, entries[..k], n)
      invariant NoDuplicates(out)
    {
      var n := NormalizeProcName(t, entries[k]);
      ListsOneMore(t, AsProc, entries, k);
      if n == "" || n in seen {
        continue;
      }
      seen := seen + {n};
      out := out + [n];
    }
    assert entries[..|entries|] == entries;
  }

  method NormalizeTitleList(t: Text, entries: seq<string>) returns (out: seq<string>)
    ensures forall n :: n in out <==> Lists(t, AsTitle, entries, n)
    ensures NoDuplicates(out)
  {
    out := [];
    var seen: set<string> := {};
    for k := 0 to |entries|
      invariant forall n :: n in seen <==> n in out
      invariant forall n :: n in out <==> Lists(t, AsTitle, entries[..k], n)
      invariant NoDuplicates(out)
    {
      var n := t.lower(t.trim(entries[k]));
      ListsOneMore(t, AsTitle, entries, k);
      if n == "" || n in seen {
        continue;
      }
      seen := seen + {n};
      out := out + [n];
    }
    assert entries[..|entries|] == entries;
  }

  lemma ListsOneMore(t: Text, form: Form, entries: seq<string>, k: nat)
    requires k < |entries|
    ensures forall n :: Lists(t, form, entries[..k + 1], n) <==>
                        Lists(t, form, entries[..k], n) || (n != "" && Norm(t, form, entries[k]) == n)
  {
    assert entries[..k + 1] == entries[..k] + [entries[k]];
    forall n
      ensures Lists(t, form, entries[..k + 1], n) <==>
              Lists(t, form, entries[..k], n) || (n != "" && Norm(t, form, entries[k]) == n)
    {
      if Lists(t, form, entries[..k], n) {
        var x :| x in entries[..k] && Norm(t, form, x) == n;
        assert x in entries[..k + 1];
      }
      if n != "" && Norm(t, form, entries[k]) == n {
        assert entries[k] in entries[..k + 1];
      }
    }
  }

  // ---- The decision -------------------------------------------------------------------------

  const BUILTIN := [
    "msedge", "chrome", "chromium", "brave", "firefox", "opera", "vivaldi", "safari",
    "1password", "bitwarden", "lastpass", "dashlane", "keeper", "nordpass", "protonpass", "roboform",
    "notepad", "textedit", "gedit", "kate"
  ]

  datatype PolicyConfig = PolicyConfig(
    enabled: bool, useBuiltInAllowlist: bool,
    allowedProcs: seq<string>, deniedProcs: seq<string>,
    allowedTitles: seq<string>, deniedTitles: seq<string>)

  datatype Focus = Focus(proc: string, title: string)

  datatype Decision = Allow | FocusUnknown | Denied | NotAllowed

  predicate Contains(s: string, p: string) {
    exists i :: 0 <= i <= |s| && p <= s[i..]
  }

  predicate TitleMatchesAny(title: string, patterns: seq<string>) {
    exists k :: 0 <= k < |patterns| && patterns[k] != "" && Contains(title, patterns[k])
  }

  ghost predicate ProcListed(t: Text, entries: seq<string>, proc: string) {
    Lists(t, AsProc, entries, proc)
  }

  ghost predicate TitleListed(t: Text, entries: seq<string>, title: string) {
    title != "" && exists n :: Lists(t, AsTitle, entries, n) && Contains(title, n)
  }

  ghost predicate HasAllowlist(t: Text, cfg: PolicyConfig) {
    || (exists n :: Lists(t, AsProc, cfg.allowedProcs, n))
    || (exists n :: Lists(t, AsTitle, cfg.allowedTitles, n))
  }

  /** The decision as a formula over the raw lists: deny wins, then any allowlist must match,
      then the built-in list if it is on. */
  ghost function Decide(t: Text, cfg: PolicyConfig, focus: Option<Focus>): Decision {
    if !cfg.enabled then Allow
    else if focus.None? then FocusUnknown
    else
      var proc, title := ProcName(t, focus.value.proc), Title(t, focus.value.title);
      if ProcListed(t, cfg.deniedProcs, proc) || TitleListed(t, cfg.deniedTitles, title) then Denied
      else if HasAllowlist(t, cfg) then
        if ProcListed(t, cfg.allowedProcs, proc) || TitleListed(t, cfg.allowedTitles, title) then Allow else NotAllowed
      else if !cfg.useBuiltInAllowlist || ProcListed(t, BUILTIN, proc) then Allow
      else NotAllowed
  }

  lemma MatchedTitlesAreListed(t: Text, entries: seq<string>, normal: seq<string>, title: string)
    requires forall n :: n in normal <==> Lists(t, AsTitle, entries, n)
    ensures title != "" && TitleMatchesAny(title, normal) <==> TitleListed(t, entries, title)
  {
    if title != "" && TitleMatchesAny(title, normal) {
      var k :| 0 <= k < |normal| && normal[k] != "" && Contains(title, normal[k]);
      assert Lists(t, AsTitle, entries, normal[k]);
    }
    if TitleListed(t, entries, title) {
      var n :| Lists(t, AsTitle, entries, n) && Contains(title, n);
      assert n in normal;
    }
  }

  lemma SomeListed(t: Text, form: Form, entries: seq<string>, normal: seq<string>)
    requires forall n :: n in normal <==> Lists(t, form, entries, n)
    ensures |normal| > 0 <==> exists n :: Lists(t, form, entries, n)
  {
    if |normal| > 0 {
      assert Lists(t, form, entries, normal[0]);
    }
  }

  method EnforceTargetPolicy(t: Text, cfg: PolicyConfig, focus: Option<Focus>) returns (d: Decision)
    ensures d == Decide(t, cfg, focus)
  {
    if !cfg.enabled {
      return Allow;
    }
    if focus.None? {
      return FocusUnknown;
    }
    var procNorm := NormalizeProcName(t, focus.value.proc);
    var titleNorm := t.lower(t.trim(focus.value.title));
    var allowProcs := NormalizeProcList(t, cfg.allowedProcs);
    var denyProcs := NormalizeProcList(t, cfg.deniedProcs);
    var allowTitles := NormalizeTitleList(t, cfg.allowedTitles);
    var denyTitles := NormalizeTitleList(t, cfg.deniedTitles);
    MatchedTitlesAreListed(t, cfg.allowedTitles, allowTitles, titleNorm);
    MatchedTitlesAreListed(t, cfg.deniedTitles, denyTitles, titleNorm);
    SomeListed(t, AsProc, cfg.allowedProcs, allowProcs);
    SomeListed(t, AsTitle, cfg.allowedTitles, allowTitles);

    if procNorm != "" && procNorm in denyProcs {
      return Denied;
    }
    if titleNorm != "" && TitleMatchesAny(titleNorm, denyTitles) {
      return Denied;
    }
    if |allowProcs| > 0 || |allowTitles| > 0 {
      if procNorm != "" && procNorm in allowProcs {
        return Allow;
      }
      if titleNorm != "" && TitleMatchesAny(titleNorm, allowTitles) {
        return Allow;
      }
      return NotAllowed;
    }
    if !cfg.useBuiltInAllowlist {
      return Allow;
    }
    var builtin := NormalizeProcList(t, BUILTIN);
    if procNorm != "" && procNorm in builtin {
      return Allow;
    }
    return NotAllowed;
  }

  // ---- The decision read off the raw lists ------------------------------------------------------

  /** Some denied process has the focus's non-blank name, or some denied title occurs in its title. */
  ghost predicate Hit(t: Text, procs: seq<string>, titles: seq<string>, focus: Focus) {
    || (exists x :: x in procs && ProcName(t, x) == ProcName(t, focus.proc) != "")
    || (exists x, a, b :: x in titles && t.lower(t.trim(x)) != ""
                          && t.lower(t.trim(focus.title)) == a + t.lower(t.trim(x)) + b)
  }

  /** Some entry is left after normalising. */
  ghost predicate SomeEntry(t: Text, procs: seq<string>, titles: seq<string>) {
    (exists x :: x in procs && ProcName(t, x) != "") || (exists x :: x in titles && t.lower(t.trim(x)) != "")
  }

  lemma ContainsMeans(s: string, p: string)
    ensures Contains(s, p) <==> exists a, b :: s == a + p + b
  {
    if Contains(s, p) {
      var i :| 0 <= i <= |s| && p <= s[i..];
      assert s == s[..i] + p + s[i + |p|..];
    }
    forall a, b | s == a + p + b
      ensures Contains(s, p)
    {
      assert s[|a|..] == p + b;
    }
  }

  lemma TitleListedMeans(t: Text, titles: seq<string>, title: string)
    ensures TitleListed(t, titles, title) <==>
            exists x, a, b :: x in titles && t.lower(t.trim(x)) != "" && title == a + t.lower(t.trim(x)) + b
  {
    if TitleListed(t, titles, title) {
      var n :| Lists(t, AsTitle, titles, n) && Contains(title, n);
      var x :| x in titles && Norm(t, AsTitle, x) == n;
      ContainsMeans(title, n);
    }
    forall x, a, b | x in titles && t.lower(t.trim(x)) != "" && title == a + t.lower(t.trim(x)) + b
      ensures TitleListed(t, titles, title)
    {
      ContainsMeans(title, t.lower(t.trim(x)));
      assert Norm(t, AsTitle, x) == t.lower(t.trim(x));
      assert Lists(t, AsTitle, titles, t.lower(t.trim(x)));
    }
  }

  lemma HitMeans(t: Text, procs: seq<string>, titles: seq<string>, focus: Focus)
    ensures Hit(t, procs, titles, focus) <==>
            ProcListed(t, procs, ProcName(t, focus.proc)) || TitleListed(t, titles, Title(t, focus.title))
  {
    TitleListedMeans(t, titles, Title(t, focus.title));
    assert ProcListed(t, procs, ProcName(t, focus.proc)) <==>
           exists x :: x in procs && ProcName(t, x) == ProcName(t, focus.proc) != "" by {
      assert forall x :: Norm(t, AsProc, x) == ProcName(t, x);
    }
  }

  lemma SomeEntryMeans(t: Text, cfg: PolicyConfig)
    ensures HasAllowlist(t, cfg) <==> SomeEntry(t, cfg.allowedProcs, cfg.allowedTitles)
  {
    assert forall x :: Norm(t, AsProc, x) == ProcName(t, x);
    assert forall x :: Norm(t, AsTitle, x) == t.lower(t.trim(x));
    forall x | x in cfg.allowedProcs && ProcName(t, x) != ""
      ensures Lists(t, AsProc, cfg.allowedProcs, ProcName(t, x))
    {
    }
    forall x | x in cfg.allowedTitles && t.lower(t.trim(x)) != ""
      ensures Lists(t, AsTitle, cfg.allowedTitles, t.lower(t.trim(x)))
    {
    }
  }

  /** An enabled policy that knows the focus denies every target that a denied entry hits, whatever
      is allowed; that is the only way to be denied. */
  lemma DenyWins(t: Text, cfg: PolicyConfig, focus: Focus)
    requires cfg.enabled
    ensures Decide(t, cfg, Some(focus)) == Denied <==> Hit(t, cfg.deniedProcs, cfg.deniedTitles, focus)
  {
    HitMeans(t, cfg.deniedProcs, cfg.deniedTitles, focus);
  }

  /** A target that no denied entry hits is allowed if and only if an allowed entry hits it, when
      there are any; else if it is a built-in one or the built-in list is off. */
  lemma AllowedIff(t: Text, cfg: PolicyConfig, focus: Focus)
    requires cfg.enabled && !Hit(t, cfg.deniedProcs, cfg.deniedTitles, focus)
    ensures Decide(t, cfg, Some(focus)) == Allow <==>
            if SomeEntry(t, cfg.allowedProcs, cfg.allowedTitles)
            then Hit(t, cfg.allowedProcs, cfg.allowedTitles, focus)
            else cfg.useBuiltInAllowlist ==> Hit(t, BUILTIN, [], focus)
  {
    HitMeans(t, cfg.deniedProcs, cfg.deniedTitles, focus);
    HitMeans(t, cfg.allowedProcs, cfg.allowedTitles, focus);
    HitMeans(t, BUILTIN, [], focus);
    SomeEntryMeans(t, cfg);
    assert !TitleListed(t, [], Title(t, focus.title));
  }

  /** A disabled policy allows everything, and an enabled one nothing while the focus is unknown. */
  lemma WithoutFocus(t: Text, cfg: PolicyConfig, focus: Option<Focus>)
    ensures !cfg.enabled ==> Decide(t, cfg, focus) == Allow
    ensures cfg.enabled ==> (Decide(t, cfg, focus) == FocusUnknown <==> focus.None?)
  {
  }

  // ---- What normalising a process name removes ----------------------------------------------------

  lemma TrimSuffixMeans(s: string, suffix: string)
    ensures (exists p :: s == p + suffix) ==> TrimSuffix(s, suffix) + suffix == s
    ensures (forall p :: s != p + suffix) ==> TrimSuffix(s, suffix) == s
  {
    if |suffix| <= |s| && s[|s| - |suffix|..] == suffix {
      assert s == s[..|s| - |suffix|] + suffix;
    }
    forall p | s == p + suffix
      ensures TrimSuffix(s, suffix) + suffix == s
    {
      assert s[|s| - |suffix|..] == suffix;
      assert s == s[..|s| - |suffix|] + suffix;
    }
  }

  /** From the trimmed base name one `.app` goes, then one `.exe`, and nothing else. */
  lemma ProcNameMeans(t: Text, s: string)
    ensures var low := t.lower(t.trim(s));
            var base, r := t.trim(BaseName(low)), ProcName(t, s);
            if low == "" then r == ""
            else if exists p :: base == p + ".exe" + ".app" then r + ".exe" + ".app" == base
            else if exists p :: base == p + ".app" then r + ".app" == base
            else if exists p :: base == p + ".exe" then r + ".exe" == base
            else r == base
  {
    var base := t.trim(BaseName(t.lower(t.trim(s))));
    var inner := TrimSuffix(base, ".app");
    TrimSuffixMeans(base, ".app");
    TrimSuffixMeans(inner, ".exe");
    forall p | base == p + ".exe" + ".app"
      ensures inner == p + ".exe"
    {
      assert base == (p + ".exe") + ".app";
      SameFront(inner, p + ".exe", ".app");
    }
    if exists p :: inner == p + ".exe" {
      var p :| inner == p + ".exe";
      assert inner != base ==> base == p + ".exe" + ".app";
    }
  }

  lemma SameFront(a: string, b: string, suffix: string)
    requires a + suffix == b + suffix
    ensures a == b
  {
    assert |a| == |b|;
    assert a == (a + suffix)[..|a|] && b == (b + suffix)[..|b|];
  }

  // ---- Consequences -----------------------------------------------------------------------------

  /** The lists hold the same entries, up to order, repetition and entries that normalise to nothing. */
  ghost predicate SameEntries(t: Text, form: Form, a: seq<string>, b: seq<string>) {
    forall x :: Norm(t, form, x) != "" ==> (x in a <==> x in b)
  }

  lemma SameEntriesListSame(t: Text, form: Form, a: seq<string>, b: seq<string>)
    requires SameEntries(t, form, a, b)
    ensures forall n :: Lists(t, form, a, n) <==> Lists(t, form, b, n)
  {
  }

  lemma OrderRepetitionAndBlanksIgnored(t: Text, cfg: PolicyConfig, other: PolicyConfig, focus: Option<Focus>)
    requires cfg.enabled == other.enabled && cfg.useBuiltInAllowlist == other.useBuiltInAllowlist
    requires SameEntries(t, AsProc, cfg.allowedProcs, other.allowedProcs)
    requires SameEntries(t, AsProc, cfg.deniedProcs, other.deniedProcs)
    requires SameEntries(t, AsTitle, cfg.allowedTitles, other.allowedTitles)
    requires SameEntries(t, AsTitle, cfg.deniedTitles, other.deniedTitles)
    ensures Decide(t, cfg, focus) == Decide(t, other, focus)
  {
    SameEntriesListSame(t, AsProc, cfg.allowedProcs, other.allowedProcs);
    SameEntriesListSame(t, AsProc, cfg.deniedProcs, other.deniedProcs);
    SameEntriesListSame(t, AsTitle, cfg.allowedTitles, other.allowedTitles);
    SameEntriesListSame(t, AsTitle, cfg.deniedTitles, other.deniedTitles);
  }

  lemma MoreEntriesListMore(t: Text, form: Form, a: seq<string>, more: seq<string>)
    ensures forall n :: Lists(t, form, a, n) ==> Lists(t, form, a + more, n)
  {
    forall n | Lists(t, form, a, n)
      ensures Lists(t, form, a + more, n)
    {
      var x :| x in a && Norm(t, form, x) == n;
      assert x in a + more;
    }
  }

  /** Adding denied entries only takes targets away. */
  lemma DeniesOnlyShrink(t: Text, cfg: PolicyConfig, procs: seq<string>, titles: seq<string>, focus: Option<Focus>)
    requires var stricter := cfg.(deniedProcs := cfg.deniedProcs + procs, deniedTitles := cfg.deniedTitles + titles);
             Decide(t, stricter, focus) == Allow
    ensures Decide(t, cfg, focus) == Allow
  {
    MoreEntriesListMore(t, AsProc, cfg.deniedProcs, procs);
    MoreEntriesListMore(t, AsTitle, cfg.deniedTitles, titles);
  }

  /** Adding allowed entries only adds targets, once some allowed entry is in force. */
  lemma AllowsOnlyGrow(t: Text, cfg: PolicyConfig, procs: seq<string>, titles: seq<string>, focus: Option<Focus>)
    requires HasAllowlist(t, cfg) && Decide(t, cfg, focus) == Allow
    ensures var looser := cfg.(allowedProcs := cfg.allowedProcs + procs, allowedTitles := cfg.allowedTitles + titles);
            Decide(t, looser, focus) == Allow
  {
    MoreEntriesListMore(t, AsProc, cfg.allowedProcs, procs);
    MoreEntriesListMore(t, AsTitle, cfg.allowedTitles, titles);
  }

  /** Without that proviso the law fails: the first allowed entries replace what was allowed so
      far, and of it only the targets they match remain. */
  lemma FirstAllowReplaces(t: Text, cfg: PolicyConfig, procs: seq<string>, titles: seq<string>, focus: Focus)
    requires !HasAllowlist(t, cfg) && Decide(t, cfg, Some(focus)) == Allow
    ensures var looser := cfg.(allowedProcs := cfg.allowedProcs + procs, allowedTitles := cfg.allowedTitles + titles);
            cfg.enabled && HasAllowlist(t, looser) ==>
              (Decide(t, looser, Some(focus)) == Allow <==>
                 ProcListed(t, procs, ProcName(t, focus.proc)) || TitleListed(t, titles, Title(t, focus.title)))
  {
    NothingListed(t, AsProc, cfg.allowedProcs, procs);
    NothingListed(t, AsTitle, cfg.allowedTitles, titles);
  }

  lemma NothingListed(t: Text, form: Form, entries: seq<string>, more: seq<string>)
    requires forall n :: !Lists(t, form, entries, n)
    ensures forall n :: Lists(t, form, entries + more, n) <==> Lists(t, form, more, n)
  {
    forall n | Lists(t, form, entries + more, n)
      ensures Lists(t, form, more, n)
    {
      var x :| x in entries + more && Norm(t, form, x) == n;
      assert x in entries ==> Lists(t, form, entries, n);
    }
    forall n | Lists(t, form, more, n)
      ensures Lists(t, form, entries + more, n)
    {
      var x :| x in more && Norm(t, form, x) == n;
      assert x in entries + more;
    }
  }

  lemma OneLetterName(t: Text, c: char)
    requires t.trim([c]) == [c] && t.lower([c]) == [c] && !IsSeparator(c)
    ensures ProcName(t, [c]) == [c]
  {
    BaseNameOfBase([c]);
  }

  /** A target that the first allowed entry costs: with names that need no normalising, allowing
      `b` shuts out `a`. */
  lemma FirstAllowCostsATarget()
    ensures var t := Text((s: string) => s, (s: string) => s);
            var cfg := PolicyConfig(true, false, [], [], [], []);
            && Decide(t, cfg, Some(Focus("a", ""))) == Allow
            && Decide(t, cfg.(allowedProcs := ["b"]), Some(Focus("a", ""))) == NotAllowed
  {
    var t := Text((s: string) => s, (s: string) => s);
    var cfg, focus := PolicyConfig(true, false, [], [], [], []), Focus("a", "");
    OneLetterName(t, 'a');
    OneLetterName(t, 'b');
    AllowedIff(t, cfg, focus);
    var stricter := cfg.(allowedProcs := ["b"]);
    assert SomeEntry(t, ["b"], []) by {
      assert "b" in ["b"];
    }
    AllowedIff(t, stricter, focus);
    DenyWins(t, stricter, focus);
    WithoutFocus(t, stricter, Some(focus));
  }
}
