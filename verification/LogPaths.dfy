/** Which log files may be read: a list of directory prefixes, and a handler that lets only
    plain file names through. */
module LogPaths {
  import opened Common
  import opened Text
  import opened Tail

  const LOG_DIRS := ["/var/log/", "/run/log/", "/var/run/log/"]

  const KNOWN_LOGS := [
    "/var/log/messages", "/var/log/syslog", "/var/log/kern.log", "/var/log/auth.log", "/var/log/dmesg",
    "/var/log/cron", "/var/log/daemon.log", "/var/log/lbu.log"
  ]

  predicate HasPrefix(p: string, prefix: string) {
    |prefix| <= |p| && p[..|prefix|] == prefix
  }

  /** The path begins with one of the log directories. */
  predicate Allowed(dirs: seq<string>, p: string) {
    exists i :: 0 <= i < |dirs| && HasPrefix(p, dirs[i])
  }

  /** The known files add nothing: all of them are in the first directory. */
  lemma KnownAreAllowed(i: nat)
    requires i < |KNOWN_LOGS|
    ensures Allowed(LOG_DIRS, KNOWN_LOGS[i])
  {
    assert HasPrefix(KNOWN_LOGS[i], LOG_DIRS[0]);
  }

  method IsAllowedLogPath(p: string) returns (ok: bool)
    ensures ok <==> Allowed(LOG_DIRS, p)
  {
    for i := 0 to |LOG_DIRS|
      invariant forall j :: 0 <= j < i ==> !HasPrefix(p, LOG_DIRS[j])
    {
      if HasPrefix(p, LOG_DIRS[i]) {
        return true;
      }
    }
    for i := 0 to |KNOWN_LOGS|
      invariant forall j :: 0 <= j < |LOG_DIRS| ==> !HasPrefix(p, LOG_DIRS[j])
    {
      if p == KNOWN_LOGS[i] {
        KnownAreAllowed(i);
        return true;
      }
    }
    ok := false;
  }

  // ---------------------------------------------------------------- where a path leads

  /** One segment of a path, from a place given by its directory names. */
  function Enter(at: seq<string>, segment: string): seq<string> {
    if segment == "" || segment == "." then at
    else if segment == ".." then if at == [] then [] else at[..|at| - 1]
    else at + [segment]
  }

  function Walk(at: seq<string>, segments: seq<string>): seq<string> {
    if segments == [] then at
    else Enter(Walk(at, segments[..|segments| - 1]), segments[|segments| - 1])
  }

  /** The place an absolute path names. */
  function Place(p: string): seq<string> {
    Walk([], Split(p, '/'))
  }

  function Level(segment: string): int {
    if segment == "" || segment == "." then 0 else if segment == ".." then -1 else 1
  }

  /** How far below its start a walk ends. */
  function Depth(segments: seq<string>): int {
    if segments == [] then 0 else Depth(segments[..|segments| - 1]) + Level(segments[|segments| - 1])
  }

  predicate Inside(dir: seq<string>, place: seq<string>) {
    |dir| <= |place| && place[..|dir|] == dir
  }

  /** No step of the walk leaves the directory. */
  predicate StaysInside(dir: seq<string>, segments: seq<string>) {
    forall n :: 0 <= n <= |segments| ==> Inside(dir, Walk(dir, segments[..n]))
  }

  predicate NeverNegative(segments: seq<string>) {
    forall n :: 0 <= n <= |segments| ==> Depth(segments[..n]) >= 0
  }

  lemma WalkNext(dir: seq<string>, segments: seq<string>, n: nat)
    requires n < |segments|
    ensures Walk(dir, segments[..n + 1]) == Enter(Walk(dir, segments[..n]), segments[n])
    ensures Depth(segments[..n + 1]) == Depth(segments[..n]) + Level(segments[n])
  {
    assert segments[..n + 1][..n] == segments[..n];
  }

  lemma EnterInside(dir: seq<string>, place: seq<string>, segment: string)
    requires Inside(dir, place) && |place| + Level(segment) >= |dir|
    ensures Inside(dir, Enter(place, segment)) && |Enter(place, segment)| == |place| + Level(segment)
  {
    assert Enter(place, segment)[..|dir|] == place[..|dir|];
  }

  lemma {:induction false} WalkInside(dir: seq<string>, segments: seq<string>, n: nat)
    requires n <= |segments| && forall m :: 0 <= m <= n ==> Depth(segments[..m]) >= 0
    ensures Inside(dir, Walk(dir, segments[..n])) && |Walk(dir, segments[..n])| == |dir| + Depth(segments[..n])
  {
    if n > 0 {
      WalkInside(dir, segments, n - 1);
      WalkNext(dir, segments, n - 1);
      EnterInside(dir, Walk(dir, segments[..n - 1]), segments[n - 1]);
    }
  }

  lemma {:induction false} FirstNegative(segments: seq<string>, n: nat) returns (m: nat)
    requires n <= |segments| && Depth(segments[..n]) < 0
    ensures 0 < m <= n && Depth(segments[..m]) < 0 && forall i :: 0 <= i < m ==> Depth(segments[..i]) >= 0
  {
    if forall i :: 0 <= i < n ==> Depth(segments[..i]) >= 0 {
      m := n;
    } else {
      var i :| 0 <= i < n && Depth(segments[..i]) < 0;
      m := FirstNegative(segments, i);
    }
  }

  lemma LeavesAt(dir: seq<string>, segments: seq<string>, m: nat)
    requires dir != [] && 0 < m <= |segments| && Depth(segments[..m]) < 0
    requires forall i :: 0 <= i < m ==> Depth(segments[..i]) >= 0
    ensures !Inside(dir, Walk(dir, segments[..m]))
  {
    WalkInside(dir, segments, m - 1);
    WalkNext(dir, segments, m - 1);
    assert Walk(dir, segments[..m - 1]) == dir;
  }

  /** A walk stays inside its directory exactly when its depth never goes negative. */
  lemma StaysInsideIff(dir: seq<string>, segments: seq<string>)
    requires dir != []
    ensures StaysInside(dir, segments) <==> NeverNegative(segments)
  {
    if NeverNegative(segments) {
      forall n | 0 <= n <= |segments|
        ensures Inside(dir, Walk(dir, segments[..n]))
      {
        WalkInside(dir, segments, n);
      }
    } else {
      var n :| 0 <= n <= |segments| && Depth(segments[..n]) < 0;
      var m := FirstNegative(segments, n);
      LeavesAt(dir, segments, m);
    }
  }

  lemma {:induction false} WalkAppend(at: seq<string>, a: seq<string>, b: seq<string>)
    ensures Walk(at, a + b) == Walk(Walk(at, a), b)
  {
    if b == [] {
      assert a + b == a;
    } else {
      assert (a + b)[..|a + b| - 1] == a + b[..|b| - 1];
      WalkAppend(at, a, b[..|b| - 1]);
    }
  }

  /** A path behind a directory leads where the rest of it leads from there. */
  lemma PlaceBehind(dir: string, rest: string)
    ensures Place(dir + "/" + rest) == Walk(Place(dir), Split(rest, '/'))
  {
    SplitAppend(dir, '/', rest);
    assert dir + "/" + rest == dir + ['/'] + rest;
    WalkAppend([], Split(dir, '/'), Split(rest, '/'));
  }

  predicate PlainSegment(name: string) {
    name != "" && name != "." && name != ".." && '/' !in name
  }

  lemma {:induction false} PlainWalk(at: seq<string>, names: seq<string>)
    requires forall n :: n in names ==> PlainSegment(n)
    ensures Walk(at, names) == at + names
  {
    if names == [] {
      assert at + names == at;
    } else {
      var init, last := names[..|names| - 1], names[|names| - 1];
      assert last in names && forall n :: n in init ==> n in names;
      PlainWalk(at, init);
      assert at + names == (at + init) + [last];
    }
  }

  /** A path of plain names leads where it says. */
  lemma PlainPlace(names: seq<string>, path: string)
    requires names != [] && (forall n :: n in names ==> PlainSegment(n)) && path == "/" + Join(names, '/')
    ensures Place(path) == names
  {
    SplitJoin(names, '/');
    assert path == "" + ['/'] + Join(names, '/');
    SplitFirst("", '/', Join(names, '/'));
    WalkAppend([], [""], names);
    assert [""][..0] == [] && Walk([], [""]) == Enter(Walk([], []), "");
    PlainWalk([], names);
    assert [] + names == names;
  }

  lemma JoinTwo(a: string, b: string)
    ensures Join([a, b], '/') == a + "/" + b
  {
    assert [a, b][1..] == [b];
  }

  lemma JoinThree(a: string, b: string, c: string)
    ensures Join([a, b, c], '/') == a + "/" + (b + "/" + c)
  {
    JoinTwo(b, c);
    assert [a, b, c][1..] == [b, c];
  }

  lemma FirstDir()
    ensures Place("/var/log") == ["var", "log"] && "/var/log" + "/" == LOG_DIRS[0]
  {
    JoinTwo("var", "log");
    PlainPlace(["var", "log"], "/var/log");
  }

  lemma SecondDir()
    ensures Place("/run/log") == ["run", "log"] && "/run/log" + "/" == LOG_DIRS[1]
  {
    JoinTwo("run", "log");
    PlainPlace(["run", "log"], "/run/log");
  }

  lemma ThirdDir()
    ensures Place("/var/run/log") == ["var", "run", "log"] && "/var/run/log" + "/" == LOG_DIRS[2]
  {
    JoinThree("var", "run", "log");
    PlainPlace(["var", "run", "log"], "/var/run/log");
  }

  /** The directory an index of the list stands for, without its last slash. */
  function Directory(i: nat): string
    requires i < |LOG_DIRS|
  {
    LOG_DIRS[i][..|LOG_DIRS[i]| - 1]
  }

  /** For every path the prefix test allows: it leads through its directory all the way, and
      to a place inside it, exactly when the depth of the rest never goes negative.  The test
      itself does not look at the rest. */
  lemma AllowedStaysIff(i: nat, rest: string)
    requires i < |LOG_DIRS|
    ensures Allowed(LOG_DIRS, LOG_DIRS[i] + rest)
    ensures Place(LOG_DIRS[i] + rest) == Walk(Place(Directory(i)), Split(rest, '/'))
    ensures StaysInside(Place(Directory(i)), Split(rest, '/')) <==> NeverNegative(Split(rest, '/'))
  {
    assert HasPrefix(LOG_DIRS[i] + rest, LOG_DIRS[i]);
    assert Directory(i) + "/" + rest == LOG_DIRS[i] + rest;
    PlaceBehind(Directory(i), rest);
    if i == 0 {
      FirstDir();
      assert Directory(0) == "/var/log";
    } else if i == 1 {
      SecondDir();
      assert Directory(1) == "/run/log";
    } else {
      ThirdDir();
      assert Directory(2) == "/var/run/log";
    }
    StaysInsideIff(Place(Directory(i)), Split(rest, '/'));
  }

  lemma UpAndOver(dir: seq<string>, name: string)
    requires dir != [] && PlainSegment(name)
    ensures Walk(dir, ["..", name]) == dir[..|dir| - 1] + [name]
  {
    assert ["..", name][..1] == [".."] && [".."][..0] == [];
    assert Walk(dir, [".."]) == Enter(Walk(dir, []), "..");
    assert Walk(dir, ["..", name]) == Enter(Walk(dir, [".."]), name);
  }

  lemma SplitUp(name: string)
    requires '/' !in name
    ensures Split("../" + name, '/') == ["..", name]
  {
    assert "../" + name == ".." + ['/'] + name;
    SplitFirst("..", '/', name);
    SplitWhole(name, '/');
  }

  /** The prefix test alone does not keep a path inside: it allows this one, which leads out
      of the directory. */
  lemma PrefixIsNotEnough(name: string)
    requires PlainSegment(name)
    ensures var p := "/var/log/" + "../" + name;
            Allowed(LOG_DIRS, p) && Place(p) == ["var", name]
  {
    var rest := "../" + name;
    FirstDir();
    assert HasPrefix("/var/log/" + rest, LOG_DIRS[0]);
    assert "/var/log/" + "../" + name == "/var/log" + "/" + rest;
    PlaceBehind("/var/log", rest);
    SplitUp(name);
    UpAndOver(["var", "log"], name);
  }

  // ---------------------------------------------------------------- the handler

  predicate PlainName(name: string) {
    name != "" && forall c :: c in name ==> c != '/' && c != '.' && c != '\\'
  }

  lemma PlainNameIsSegment(name: string)
    requires PlainName(name)
    ensures PlainSegment(name) && Split(name, '/') == [name]
  {
    SplitWhole(name, '/');
    assert name[0] in name;
  }

  lemma OneSegment(name: string)
    requires PlainSegment(name)
    ensures NeverNegative([name])
  {
    forall n | 0 <= n <= 1
      ensures Depth([name][..n]) >= 0
    {
      if n == 1 {
        assert [name][..1] == [name] && [name][..0] == [];
      } else {
        assert [name][..0] == [];
      }
    }
  }

  /** Every name the handler lets through is a file of the first directory. */
  lemma PlainNameStays(name: string)
    requires PlainName(name)
    ensures Allowed(LOG_DIRS, LOG_DIRS[0] + name) && Place(LOG_DIRS[0] + name) == ["var", "log", name]
    ensures NeverNegative(Split(name, '/'))
  {
    PlainNameIsSegment(name);
    OneSegment(name);
    AllowedStaysIff(0, name);
    FirstDir();
    assert Directory(0) == "/var/log";
    PlainWalk(["var", "log"], [name]);
  }

  datatype Reply = MissingName | InvalidName | NotAccessible | Tail(lines: seq<string>)

  /** The exported entry: paths outside the directories are denied, an odd line count becomes
      100, and a window that suffices shows what the simple form shows. */
  method TailPath(path: string, open: string -> File, n: int) returns (r: Result)
    ensures r == Failure <==> !Allowed(LOG_DIRS, path) || open(path).Unreadable?
    ensures r.Lines? ==> |r.lines| <= 1000
    ensures r.Lines? && WindowSuffices(open(path).text, MAX_TAIL_BYTES, Requested(n)) ==>
              r == Lines(WholeTail(open(path).text, Requested(n)))
  {
    var allowed := IsAllowedLogPath(path);
    r := TailAllowed(allowed, open(path), n);
  }

  /** The handler: only plain names, and what they name is read from the first directory. */
  method LogsTail(name: string, count: Option<int>, open: string -> File) returns (reply: Reply)
    ensures reply == MissingName <==> name == ""
    ensures reply == InvalidName <==> '/' in name || '.' in name || '\\' in name
    ensures reply == NotAccessible <==> PlainName(name) && open(LOG_DIRS[0] + name).Unreadable?
    ensures reply.Tail? ==> Place(LOG_DIRS[0] + name) == ["var", "log", name] && |reply.lines| <= 1000
    ensures var lines := Requested(if count.Some? then count.value else 100);
            reply.Tail? && WindowSuffices(open(LOG_DIRS[0] + name).text, MAX_TAIL_BYTES, lines) ==>
              reply.lines == WholeTail(open(LOG_DIRS[0] + name).text, lines)
  {
    if name == "" {
      return MissingName;
    }
    for i := 0 to |name|
      invariant forall j :: 0 <= j < i ==> name[j] != '/' && name[j] != '.' && name[j] != '\\'
    {
      if name[i] == '/' || name[i] == '.' || name[i] == '\\' {
        assert name[i] in name;
        return InvalidName;
      }
    }
    PlainNameStays(name);
    var n := 100;
    if count.Some? {
      n := count.value;
    }
    var r := TailPath(LOG_DIRS[0] + name, open, n);
    reply := if r == Failure then NotAccessible else Tail(r.lines);
  }
}
