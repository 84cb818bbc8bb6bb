/** Which agent runs in a pane, from its process names. */
module Detect {
  import opened Common
  import opened ProcessTree

  /** Process names and the label each stands for. */
  const AGENT_NAMES: seq<(string, string)> := [
    ("claude", "claude"), ("codex", "codex"), ("copilot", "copilot"), ("gh-copilot", "copilot"),
    ("github-copilot", "copilot"), ("gemini", "gemini"), ("cursor", "cursor"), ("cursor-agent", "cursor"),
    ("opencode", "opencode"), ("aider", "aider"), ("amp", "amp"), ("droid", "droid"), ("cline", "cline"),
    ("kimi", "kimi"), ("kiro", "kiro"), ("grok", "grok"), ("devin", "devin"), ("hermes", "hermes"),
    ("kilo", "kilo"), ("qodercli", "qodercli"), ("mastracode", "mastracode"), ("antigravity", "agy")]

  predicate IsSeparator(c: char) { c == '/' || c == '\\' }

  /** What follows the last path separator. */
  function Basename(s: string): (b: string)
    ensures |b| <= |s| && b == s[|s| - |b|..]
    ensures forall c :: c in b ==> !IsSeparator(c)
    ensures b != s ==> IsSeparator(s[|s| - |b| - 1])
  {
    if s == [] then []
    else if IsSeparator(s[|s| - 1]) then []
    else
      var b := Basename(s[..|s| - 1]) + [s[|s| - 1]];
      b
  }

  function TrimStart(s: string): string
  {
    if s != [] && IsWhitespace(s[0]) then TrimStart(s[1..]) else s
  }

  function StripSuffix(s: string, suffix: string): string
  {
    if |suffix| <= |s| && s[|s| - |suffix|..] == suffix then s[..|s| - |suffix|] else s
  }

  function LowerChar(c: char): char
  {
    if 'A' <= c <= 'Z' then c - 'A' + 'a' else c
  }

  function Lower(s: string): string
  {
    seq(|s|, i requires 0 <= i < |s| => LowerChar(s[i]))
  }

  /** The comparable form of a process name: base name, no `.exe`, trimmed, lower case. */
  function Normalize(processName: string): string
  {
    Lower(TrimStart(TrimEnd(StripSuffix(Basename(processName), ".exe"))))
  }

  function LabelOf(entries: seq<(string, string)>, name: string): Option<string>
  {
    if entries == [] then None
    else if entries[0].0 == name then Some(entries[0].1)
    else LabelOf(entries[1..], name)
  }

  function IdentifyAgent(processName: string): Option<string>
  {
    LabelOf(AGENT_NAMES, Normalize(processName))
  }

  // ---------------------------------------------------------------- which names are identified

  predicate Blank(s: string) { forall i :: 0 <= i < |s| ==> IsWhitespace(s[i]) }

  /** A path up to and including a separator, or nothing. */
  predicate IsDirectory(s: string) { s == "" || IsSeparator(s[|s| - 1]) }

  /** A process name in its parts: directory, blanks, the name itself, blanks, and possibly `.exe`. */
  function Spelled(directory: string, lead: string, core: string, trail: string, exe: bool): string
  {
    directory + (lead + core + trail + if exe then ".exe" else "")
  }

  /** Such a spelling of a listed name, in any case. */
  ghost predicate Spells(s: string, entry: (string, string), directory: string, lead: string, core: string,
    trail: string, exe: bool)
  {
    && s == Spelled(directory, lead, core, trail, exe) && Lower(core) == entry.0
    && IsDirectory(directory) && Blank(lead) && Blank(trail)
  }

  /** Small letters and hyphens only. */
  predicate IsPlain(name: string)
  {
    name != "" && forall i :: 0 <= i < |name| ==> 'a' <= name[i] <= 'z' || name[i] == '-'
  }

  lemma {:induction false} BasenameFollows(directory: string, base: string)
    requires IsDirectory(directory) && OneName(base)
    ensures Basename(directory + base) == base
    decreases |base|
  {
    hide Basename, IsSeparator;
    NothingAfter(directory);
    if base == "" {
      assert directory + base == directory;
    } else {
      var (init, last) := (base[..|base| - 1], base[|base| - 1]);
      assert base == init + [last];
      assert directory + base == directory + init + [last];
      BasenameFollows(directory, init);
      OneMoreOfBase(directory + init, last);
    }
  }

  lemma NothingAfter(directory: string)
    requires IsDirectory(directory)
    ensures Basename(directory) == ""
  {
  }

  lemma OneMoreOfBase(s: string, last: char)
    requires !IsSeparator(last)
    ensures Basename(s + [last]) == Basename(s) + [last]
  {
    assert (s + [last])[..|s|] == s;
  }

  predicate OneName(s: string) { forall i :: 0 <= i < |s| ==> !IsSeparator(s[i]) }

  /** Nothing in it separates directories or starts an extension. */
  predicate Clean(s: string) { OneName(s) && forall i :: 0 <= i < |s| ==> s[i] != '.' }

  lemma CleanName(lead: string, core: string, trail: string)
    requires Blank(lead) && Blank(trail) && IsPlain(Lower(core))
    ensures Clean(lead + core + trail)
    ensures core != "" && !IsWhitespace(core[0]) && !IsWhitespace(core[|core| - 1])
  {
    forall i | 0 <= i < |core| ensures !IsWhitespace(core[i]) && !IsSeparator(core[i]) && core[i] != '.' {
      assert Lower(core)[i] == LowerChar(core[i]);
    }
  }

  lemma ExtensionStrips(inner: string)
    requires Clean(inner)
    ensures StripSuffix(inner + ".exe", ".exe") == inner && StripSuffix(inner, ".exe") == inner
  {
    assert (inner + ".exe")[|inner|..] == ".exe" && (inner + ".exe")[..|inner|] == inner;
    if |inner| >= 4 { assert inner[|inner| - 4..][0] == inner[|inner| - 4] != '.'; }
  }

  lemma CleanExtends(inner: string)
    requires Clean(inner)
    ensures OneName(inner) && OneName(inner + ".exe")
  {
  }

  lemma {:induction false} TrimmedStart(lead: string, core: string)
    requires Blank(lead) && core != "" && !IsWhitespace(core[0])
    ensures TrimStart(lead + core) == core
  {
    hide IsWhitespace;
    if lead == "" {
      assert lead + core == core;
    } else {
      assert (lead + core)[1..] == lead[1..] + core;
      TrimmedStart(lead[1..], core);
    }
  }

  lemma {:induction false} TrimmedEnd(core: string, trail: string)
    requires Blank(trail) && core != "" && !IsWhitespace(core[|core| - 1])
    ensures TrimEnd(core + trail) == core
    decreases |trail|
  {
    hide IsWhitespace;
    var s := core + trail;
    if trail == "" {
      assert s == core;
    } else {
      assert s[..|s| - 1] == core + trail[..|trail| - 1] && s[|s| - 1] == trail[|trail| - 1];
      TrimmedEnd(core, trail[..|trail| - 1]);
    }
  }

  /** A spelling of a name is that name, once normalised. */
  lemma SpellingNormalises(entry: (string, string), directory: string, lead: string, core: string, trail: string,
    exe: bool)
    requires Lower(core) == entry.0 && IsDirectory(directory) && Blank(lead) && Blank(trail) && IsPlain(entry.0)
    ensures Normalize(Spelled(directory, lead, core, trail, exe)) == entry.0
  {
    hide *;
    var inner := lead + core + trail;
    CleanName(lead, core, trail);
    ExtensionStrips(inner);
    CleanExtends(inner);
    SpelledParts(directory, lead, core, trail, exe);
    if exe {
      BasenameFollows(directory, inner + ".exe");
      BaseNormalises(directory + (inner + ".exe"), inner + ".exe", lead, core, trail);
    } else {
      BasenameFollows(directory, inner);
      BaseNormalises(directory + inner, inner, lead, core, trail);
    }
  }

  lemma SpelledParts(directory: string, lead: string, core: string, trail: string, exe: bool)
    ensures var inner := lead + core + trail;
            Spelled(directory, lead, core, trail, exe) == directory + if exe then inner + ".exe" else inner
  {
    assert lead + core + trail + "" == lead + core + trail;
  }

  lemma BaseNormalises(s: string, base: string, lead: string, core: string, trail: string)
    requires Basename(s) == base && StripSuffix(base, ".exe") == lead + core + trail
    requires Blank(lead) && Blank(trail) && core != "" && !IsWhitespace(core[0]) && !IsWhitespace(core[|core| - 1])
    ensures Normalize(s) == Lower(core)
  {
    hide Basename, StripSuffix, TrimEnd, TrimStart, Lower, IsWhitespace, Blank;
    assert (lead + core)[|lead + core| - 1] == core[|core| - 1];
    TrimmedEnd(lead + core, trail);
    TrimmedStart(lead, core);
  }

  lemma {:induction false} TrimStartSplits(s: string) returns (lead: string)
    ensures Blank(lead) && s == lead + TrimStart(s)
  {
    if s != [] && IsWhitespace(s[0]) {
      var rest := TrimStartSplits(s[1..]);
      lead := [s[0]] + rest;
      assert s == [s[0]] + s[1..];
    } else {
      lead := "";
    }
  }

  lemma StripSplits(base: string) returns (exe: bool)
    ensures base == StripSuffix(base, ".exe") + if exe then ".exe" else ""
  {
    exe := |base| >= 4 && base[|base| - 4..] == ".exe";
  }

  lemma TrimEndSplits(s: string) returns (trail: string)
    ensures Blank(trail) && s == TrimEnd(s) + trail
  {
    trail := s[|TrimEnd(s)|..];
  }

  /** And whatever normalises to a name is a spelling of it. */
  lemma NormalisedIsSpelled(s: string, entry: (string, string))
    returns (directory: string, lead: string, core: string, trail: string, exe: bool)
    requires Normalize(s) == entry.0
    ensures Spells(s, entry, directory, lead, core, trail, exe)
  {
    hide Basename, StripSuffix, TrimEnd, TrimStart, Lower, IsWhitespace, Blank;
    var base := Basename(s);
    directory := s[..|s| - |base|];
    assert s == directory + base && IsDirectory(directory);
    exe := StripSplits(base);
    trail := TrimEndSplits(StripSuffix(base, ".exe"));
    lead := TrimStartSplits(TrimEnd(StripSuffix(base, ".exe")));
    core := TrimStart(TrimEnd(StripSuffix(base, ".exe")));
  }

  lemma {:induction false} LabelIsListed(entries: seq<(string, string)>, name: string)
    ensures LabelOf(entries, name).Some? ==>
      exists k :: 0 <= k < |entries| && entries[k] == (name, LabelOf(entries, name).value)
    ensures LabelOf(entries, name).None? ==> forall k :: 0 <= k < |entries| ==> entries[k].0 != name
  {
    if entries != [] && entries[0].0 != name {
      LabelIsListed(entries[1..], name);
      if LabelOf(entries, name).Some? {
        var k :| 0 <= k < |entries[1..]| && entries[1..][k] == (name, LabelOf(entries, name).value);
        assert entries[k + 1] == entries[1..][k];
      } else {
        assert forall k :: 0 < k < |entries| ==> entries[k] == entries[1..][k - 1];
      }
    }
  }

  lemma ListedNamesArePlain()
    ensures forall k :: 0 <= k < |AGENT_NAMES| ==> IsPlain(AGENT_NAMES[k].0)
  {
  }

  lemma ListedNamesDiffer()
    ensures forall j, k :: 0 <= j < k < |AGENT_NAMES| ==> AGENT_NAMES[j].0 != AGENT_NAMES[k].0
  {
  }

  /**
   Which process names are agents: exactly the spellings of a listed name, in any case, after any
   directory, between any blanks, with or without `.exe`; and each is its own entry's label.
   */
  lemma IdentifiedAreSpellings(s: string, agent: string)
    ensures IdentifyAgent(s) == Some(agent) <==>
      exists k: nat, directory, lead, core, trail, exe ::
        k < |AGENT_NAMES| && AGENT_NAMES[k].1 == agent && Spells(s, AGENT_NAMES[k], directory, lead, core, trail, exe)
  {
    hide Normalize, Lower, Spelled, LabelOf, IsPlain, AGENT_NAMES, IsDirectory, Blank;
    ListedNamesArePlain();
    ListedNamesDiffer();
    LabelIsListed(AGENT_NAMES, Normalize(s));
    if IdentifyAgent(s) == Some(agent) {
      var k: nat :| k < |AGENT_NAMES| && AGENT_NAMES[k] == (Normalize(s), agent);
      var directory, lead, core, trail, exe := NormalisedIsSpelled(s, AGENT_NAMES[k]);
    }
    if k: nat, directory, lead, core, trail, exe :|
      k < |AGENT_NAMES| && AGENT_NAMES[k].1 == agent && Spells(s, AGENT_NAMES[k], directory, lead, core, trail, exe)
    {
      SpellingNormalises(AGENT_NAMES[k], directory, lead, core, trail, exe);
      assert Normalize(s) == AGENT_NAMES[k].0;
    }
  }

  /** So each listed name stands for its label. */
  lemma ListedNamesIdentify(k: nat)
    requires k < |AGENT_NAMES|
    ensures IdentifyAgent(AGENT_NAMES[k].0) == Some(AGENT_NAMES[k].1)
  {
    hide IdentifyAgent, AGENT_NAMES;
    ListedNamesArePlain();
    var name := AGENT_NAMES[k].0;
    PlainIsLower(name);
    assert Spelled("", "", name, "", false) == name;
    assert Spells(name, AGENT_NAMES[k], "", "", name, "", false);
    IdentifiedAreSpellings(name, AGENT_NAMES[k].1);
  }

  lemma PlainIsLower(name: string)
    requires IsPlain(name)
    ensures Lower(name) == name
  {
  }

  lemma BlanksAround(lead: string, core: string, trail: string, i: nat)
    requires Blank(lead) && Blank(trail) && i < |lead + core + trail| && !IsWhitespace((lead + core + trail)[i])
    ensures |lead| <= i < |lead| + |core| && core[i - |lead|] == (lead + core + trail)[i]
  {
    hide IsWhitespace;
    var s := lead + core + trail;
    assert forall j :: 0 <= j < |lead| ==> s[j] == lead[j];
    assert forall j :: |lead| + |core| <= j < |s| ==> s[j] == trail[j - |lead| - |core|];
  }

  /** A dot that is not taken off with the extension names no agent. */
  lemma DotsNameNoAgent(s: string, i: nat)
    requires OneName(s) && StripSuffix(s, ".exe") == s && i < |s| && s[i] == '.'
    ensures IdentifyAgent(s) == None
  {
    hide Basename, StripSuffix, TrimEnd, TrimStart, AGENT_NAMES, LabelOf;
    BasenameFollows("", s);
    assert "" + s == s;
    var kept := TrimEnd(s);
    var trail := TrimEndSplits(s);
    var lead := TrimStartSplits(kept);
    var core := TrimStart(kept);
    assert s == lead + core + trail;
    BlanksAround(lead, core, trail, i);
    assert Lower(core)[i - |lead|] == '.';
    ListedNamesArePlain();
    LabelIsListed(AGENT_NAMES, Normalize(s));
  }

  /**
   The extension is taken off only as it is written, `.exe` in small letters and at the very end: a
   listed name in any case is identified with it, and with no other spelling of it or blanks after it.
   */
  lemma OnlyPlainExtensionsStrip(k: nat, core: string, extension: string, blanks: string)
    requires k < |AGENT_NAMES| && Lower(core) == AGENT_NAMES[k].0 && Lower(extension) == ".exe" && Blank(blanks)
    ensures IdentifyAgent(core + extension + blanks) ==
            if extension == ".exe" && blanks == "" then Some(AGENT_NAMES[k].1) else None
  {
    hide IdentifyAgent, AGENT_NAMES;
    var s := core + extension + blanks;
    ListedNamesArePlain();
    if extension == ".exe" && blanks == "" {
      assert Spelled("", "", core, "", true) == s;
      assert Spells(s, AGENT_NAMES[k], "", "", core, "", true);
      IdentifiedAreSpellings(s, AGENT_NAMES[k].1);
    } else {
      CleanName("", core, "");
      assert "" + core + "" == core;
      OtherExtensionStays(core, extension, blanks);
      DotsNameNoAgent(s, |core|);
    }
  }

  lemma OtherExtensionStays(core: string, extension: string, blanks: string)
    requires OneName(core) && Lower(extension) == ".exe" && Blank(blanks) && (extension != ".exe" || blanks != "")
    ensures var s := core + extension + blanks;
            OneName(s) && StripSuffix(s, ".exe") == s && |core| < |s| && s[|core|] == '.'
  {
    var s := core + extension + blanks;
    forall i | 0 <= i < 4 ensures LowerChar(extension[i]) == ".exe"[i] { assert Lower(extension)[i] == ".exe"[i]; }
    assert s[|s| - 4..][3] == s[|s| - 1];
    if blanks != "" {
      assert s[|s| - 1] == blanks[|blanks| - 1];
    } else {
      assert s[|s| - 4..] == extension;
    }
  }

  /** Rust's `find_map`: the first answer along the sequence. */
  function FindMap<T, U>(items: seq<T>, f: T -> Option<U>): Option<U>
  {
    if items == [] then None
    else if f(items[0]).Some? then f(items[0])
    else FindMap(items[1..], f)
  }

  lemma {:induction false} FindMapIsFirst<T, U>(items: seq<T>, f: T -> Option<U>)
    ensures FindMap(items, f).None? ==> forall i :: 0 <= i < |items| ==> f(items[i]).None?
    ensures FindMap(items, f).Some? ==>
              exists i ::
                && 0 <= i < |items| && f(items[i]) == FindMap(items, f)
                && forall j :: 0 <= j < i ==> f(items[j]).None?
  {
    if items == [] {
    } else if f(items[0]).Some? {
    } else {
      FindMapIsFirst(items[1..], f);
      if FindMap(items[1..], f).Some? {
        var i :|
          && 0 <= i < |items[1..]| && f(items[1..][i]) == FindMap(items[1..], f)
          && forall j :: 0 <= j < i ==> f(items[1..][j]).None?;
        assert f(items[i + 1]) == FindMap(items, f);
        assert forall j :: 0 < j < i + 1 ==> items[j] == items[1..][j - 1];
      } else {
        assert forall j :: 0 < j < |items| ==> items[j] == items[1..][j - 1];
      }
    }
  }

  /** The label of the first name that names an agent. */
  function IdentifyAgentAmong(names: seq<string>): Option<string>
  {
    FindMap(names, IdentifyAgent)
  }

  /**
   Along a breadth-first listing the first answer is a shallowest one, whatever is looked for:
   no listed descendant strictly shallower gives any answer.
   */
  lemma FirstIsShallowest(names: seq<string>, depths: seq<nat>, f: string -> Option<string>)
    requires |names| == |depths| && Ascending(depths)
    ensures FindMap(names, f).Some? <==> exists i :: 0 <= i < |names| && f(names[i]).Some?
    ensures FindMap(names, f).Some? ==>
              exists i ::
                && 0 <= i < |names| && f(names[i]) == FindMap(names, f)
                && forall j :: 0 <= j < |names| && depths[j] < depths[i] ==> f(names[j]).None?
  {
    FindMapIsFirst(names, f);
    if FindMap(names, f).Some? {
      var i :| 0 <= i < |names| && f(names[i]) == FindMap(names, f) && forall j :: 0 <= j < i ==> f(names[j]).None?;
      forall j | 0 <= j < |names| && depths[j] < depths[i] ensures f(names[j]).None? {
        assert j < i;
      }
    }
  }

  /** No table entry repeats a pid, as in a well-formed process table. */
  predicate UniquePids(table: seq<Process>)
  {
    forall i, j :: 0 <= i < j < |table| ==> table[i].pid != table[j].pid
  }

  /** Looking at the table alone: entry `p` hangs `n` links below the root, on a shortest chain, and answers `f`. */
  ghost predicate Answers(table: seq<Process>, root: Pid, f: string -> Option<string>, p: Process, n: nat)
  {
    && p in table && p.pid != root && DepthIs(table, root, p.pid, n) && f(p.comm).Some?
    && n > 0 && Reaches(table, root, p.ppid, n - 1)
  }

  /** The pid lies `m` links below the root, and every entry that hangs it there answers `f`. */
  ghost predicate SurelyAnswers(table: seq<Process>, root: Pid, f: string -> Option<string>, q: Pid, m: nat)
  {
    && q != root && DepthIs(table, root, q, m)
    && forall e :: e in table && e.pid == q && m > 0 && Reaches(table, root, e.ppid, m - 1) ==> f(e.comm).Some?
  }

  /**
   In terms of the table alone, malformed or not: the agent found is named by an entry on a shortest
   chain, no deeper than any pid that is an agent by all its entries there; and one is found if there
   is such a pid. So where no pid is listed twice, an agent is found if and only if some proper
   descendant of the shell is one, and at the least depth of any.
   */
  lemma DetectionIsCompleteAndShallowest(table: seq<Process>, root: Pid, names: seq<string>)
    requires NamesDescendants(table, root, names)
    ensures IdentifyAgentAmong(names).Some? ==>
      exists p, n ::
        && Answers(table, root, IdentifyAgent, p, n) && IdentifyAgent(p.comm) == IdentifyAgentAmong(names)
        && (forall q, m :: SurelyAnswers(table, root, IdentifyAgent, q, m) ==> n <= m)
        && (UniquePids(table) ==> forall q, m :: Answers(table, root, IdentifyAgent, q, m) ==> n <= m)
    ensures (exists q, m :: SurelyAnswers(table, root, IdentifyAgent, q, m)) ==> IdentifyAgentAmong(names).Some?
    ensures UniquePids(table) ==>
      (IdentifyAgentAmong(names).Some? <==> exists p, n :: Answers(table, root, IdentifyAgent, p, n))
  {
    hide Answers, SurelyAnswers, UniquePids, NamesDescendants, FindMap, IdentifyAgent;
    FirstAnswerInTheTable(table, root, names, IdentifyAgent);
  }

  lemma UniqueAnswersSurely(table: seq<Process>, root: Pid, f: string -> Option<string>, q: Process, m: nat)
    requires UniquePids(table) && Answers(table, root, f, q, m)
    ensures SurelyAnswers(table, root, f, q.pid, m)
  {
    forall e | e in table && e.pid == q.pid ensures e == q {
      var a :| 0 <= a < |table| && table[a] == e;
      var b :| 0 <= b < |table| && table[b] == q;
      assert a == b;
    }
  }

  /** The same of any way to answer. */
  lemma FirstAnswerInTheTable(table: seq<Process>, root: Pid, names: seq<string>, f: string -> Option<string>)
    requires NamesDescendants(table, root, names)
    ensures FindMap(names, f).Some? ==>
      exists p, n ::
        && Answers(table, root, f, p, n) && f(p.comm) == FindMap(names, f)
        && (forall q, m :: SurelyAnswers(table, root, f, q, m) ==> n <= m)
        && (UniquePids(table) ==> forall q, m :: Answers(table, root, f, q, m) ==> n <= m)
    ensures (exists q, m :: SurelyAnswers(table, root, f, q, m)) ==> FindMap(names, f).Some?
    ensures UniquePids(table) ==> (FindMap(names, f).Some? <==> exists p, n :: Answers(table, root, f, p, n))
  {
    hide Answers, SurelyAnswers, FindMap, BreadthFirst, UniquePids;
    var pids, depths :| BreadthFirst(table, root, pids, depths, names);
    FirstSureAnswer(table, root, pids, depths, names, f);
    if UniquePids(table) {
      forall q, m | Answers(table, root, f, q, m) ensures SurelyAnswers(table, root, f, q.pid, m) {
        UniqueAnswersSurely(table, root, f, q, m);
      }
    }
  }

  lemma FirstSureAnswer(
    table: seq<Process>, root: Pid, pids: seq<Pid>, depths: seq<nat>, names: seq<string>, f: string -> Option<string>)
    requires BreadthFirst(table, root, pids, depths, names)
    ensures (exists q, m :: SurelyAnswers(table, root, f, q, m)) ==> FindMap(names, f).Some?
    ensures FindMap(names, f).Some? ==>
      exists p, n ::
        && Answers(table, root, f, p, n) && f(p.comm) == FindMap(names, f)
        && forall q, m :: SurelyAnswers(table, root, f, q, m) ==> n <= m
  {
    forall q, m | SurelyAnswers(table, root, f, q, m)
      ensures exists i :: 0 <= i < |names| && f(names[i]).Some? && depths[i] == m
    {
      var i := SureAnswerIsListed(table, root, pids, depths, names, f, q, m);
    }
    FirstIsShallowest(names, depths, f);
    if FindMap(names, f).Some? {
      var i :| 0 <= i < |names| && f(names[i]) == FindMap(names, f)
        && forall j :: 0 <= j < |names| && depths[j] < depths[i] ==> f(names[j]).None?;
      var p := EntryListed(table, root, pids, depths, names, i);
      assert Answers(table, root, f, p, depths[i]);
      forall q, m | SurelyAnswers(table, root, f, q, m) ensures depths[i] <= m {
        var j :| 0 <= j < |names| && f(names[j]).Some? && depths[j] == m;
      }
    }
  }

  lemma EntryListed(table: seq<Process>, root: Pid, pids: seq<Pid>, depths: seq<nat>, names: seq<string>, i: nat)
    returns (p: Process)
    requires BreadthFirst(table, root, pids, depths, names) && i < |names|
    ensures p in table && p.pid == pids[i] != root && p.comm == names[i] && DepthIs(table, root, p.pid, depths[i])
    ensures depths[i] > 0 && Reaches(table, root, p.ppid, depths[i] - 1)
  {
    assert Named(table, root, pids[i], names[i], depths[i]);
    var parent :| Process(pids[i], parent, names[i]) in table && Reaches(table, root, parent, depths[i] - 1);
    p := Process(pids[i], parent, names[i]);
    assert pids[i] in pids;
  }

  lemma SureAnswerIsListed(
    table: seq<Process>, root: Pid, pids: seq<Pid>, depths: seq<nat>, names: seq<string>, f: string -> Option<string>,
    q: Pid, m: nat)
    returns (i: nat)
    requires BreadthFirst(table, root, pids, depths, names) && SurelyAnswers(table, root, f, q, m)
    ensures i < |names| && f(names[i]).Some? && depths[i] == m
  {
    assert q in pids;
    i :| 0 <= i < |pids| && pids[i] == q;
    assert DepthIs(table, root, pids[i], depths[i]);
    assert depths[i] == m;
    var p := EntryListed(table, root, pids, depths, names, i);
  }
}
