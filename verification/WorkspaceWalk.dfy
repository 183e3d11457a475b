/**
 * The list of a workspace's files and folders: a breadth-first walk driven by a queue, cut off by
 * a number of entries, a depth and a time.
 */
module WorkspaceWalk {
  import opened Text
  import opened Wrappers

  datatype Kind = File | Folder | Link | Special

  datatype Dirent = Dirent(name: string, kind: Kind)

  datatype Dir = Dir(relative: string, depth: nat)

  /** What reading a directory finds; none when it cannot be read or now leads out of the root. */
  type Disk = string -> Option<seq<Dirent>>

  const IGNORED_DIRECTORIES: set<string> := {
    ".git", ".hg", ".svn", "node_modules", ".svelte-kit", "build", "dist", ".next", ".turbo", ".cache",
    "coverage", "target", "__pycache__", ".venv", "venv"
  }

  predicate Unprintable(name: string) {
    exists i :: 0 <= i < |name| && (name[i] <= '\U{1f}' || name[i] == '\U{7f}')
  }

  /** Whether an entry is listed at all. */
  predicate Kept(d: Dirent) {
    && !Unprintable(d.name)
    && (d.kind.File? || (d.kind.Folder? && d.name !in IGNORED_DIRECTORIES))
  }

  // ----- The order within a directory -----

  predicate Before(a: string, b: string) {
    b != "" && (a == "" || a[0] < b[0] || (a[0] == b[0] && Before(a[1..], b[1..])))
  }

  /** One text comes before another where they first differ, or as a beginning of it. */
  ghost predicate FirstDiffers(a: string, b: string, k: nat) {
    && k <= |a| && k < |b| && a[..k] == b[..k]
    && (k == |a| || a[k] < b[k])
  }

  lemma SameStart(a: string, b: string, k: nat)
    requires FirstDiffers(a, b, k) && k > 0
    ensures a != "" && b != "" && a[0] == b[0]
  {
    assert a[0] == a[..k][0] && b[0] == b[..k][0];
  }

  lemma {:induction false} BeforeMeans(a: string, b: string)
    ensures Before(a, b) <==> exists k: nat :: FirstDiffers(a, b, k)
    decreases |a|
  {
    if a != "" && b != "" && a[0] == b[0] {
      BeforeMeans(a[1..], b[1..]);
      if k: nat :| FirstDiffers(a[1..], b[1..], k) {
        assert a[..k + 1] == [a[0]] + a[1..][..k] && b[..k + 1] == [b[0]] + b[1..][..k];
        assert FirstDiffers(a, b, k + 1);
      }
      if k: nat :| FirstDiffers(a, b, k) {
        assert k > 0;
        assert a[1..][..k - 1] == a[..k][1..] && b[1..][..k - 1] == b[..k][1..];
        assert FirstDiffers(a[1..], b[1..], k - 1);
      }
    } else {
      if Before(a, b) {
        assert FirstDiffers(a, b, 0);
      }
      if k: nat :| FirstDiffers(a, b, k) {
        if k > 0 {
          SameStart(a, b, k);
        }
      }
    }
  }

  predicate InOrder(s: seq<Dirent>) {
    forall i, j :: 0 <= i < j < |s| ==> !Before(s[j].name, s[i].name)
  }

  function Insert(d: Dirent, s: seq<Dirent>): seq<Dirent> {
    if s == [] || !Before(s[0].name, d.name) then [d] + s else [s[0]] + Insert(d, s[1..])
  }

  function Sort(s: seq<Dirent>): seq<Dirent> {
    if s == [] then [] else Insert(s[0], Sort(s[1..]))
  }

  lemma {:induction false} BeforeIsOrder(a: string, b: string, c: string)
    ensures !(Before(a, b) && Before(b, a))
    ensures !Before(b, a) && !Before(c, b) ==> !Before(c, a)
    decreases |a|
  {
    if a != "" && b != "" && c != "" {
      BeforeIsOrder(a[1..], b[1..], c[1..]);
    } else if a != "" && b != "" {
      BeforeIsOrder(a[1..], b[1..], "");
    }
  }

  lemma {:induction false} InsertKeeps(d: Dirent, s: seq<Dirent>)
    ensures multiset(Insert(d, s)) == multiset{d} + multiset(s)
    decreases |s|
  {
    hide Before;
    if s != [] && Before(s[0].name, d.name) {
      InsertKeeps(d, s[1..]);
      assert s == [s[0]] + s[1..];
    }
  }

  lemma {:induction false} InsertSorts(d: Dirent, s: seq<Dirent>)
    requires InOrder(s)
    ensures InOrder(Insert(d, s)) && multiset(Insert(d, s)) == multiset{d} + multiset(s)
    decreases |s|
  {
    hide Before;
    InsertKeeps(d, s);
    if s == [] || !Before(s[0].name, d.name) {
      forall j | 0 <= j < |s| ensures !Before(s[j].name, d.name) {
        BeforeIsOrder(d.name, s[0].name, s[j].name);
      }
    } else {
      var r := Insert(d, s[1..]);
      InsertSorts(d, s[1..]);
      forall j | 0 <= j < |r| ensures !Before(r[j].name, s[0].name) {
        assert r[j] in multiset(r);
        BeforeIsOrder(s[0].name, d.name, d.name);
      }
    }
  }

  /** Sorting a directory keeps its entries and puts them in order. */
  lemma {:induction false} SortSorts(s: seq<Dirent>)
    ensures InOrder(Sort(s)) && multiset(Sort(s)) == multiset(s)
    decreases |s|
  {
    if s != [] {
      SortSorts(s[1..]);
      InsertSorts(s[0], Sort(s[1..]));
      assert s == [s[0]] + s[1..];
    }
  }

  // ----- The complete listing, level by level -----

  function PathOf(dir: Dir, name: string): string {
    if dir.relative == "" then name else dir.relative + "/" + name
  }

  function Entries(dir: Dir, dirents: seq<Dirent>): seq<string> {
    if dirents == [] then []
    else if !Kept(dirents[0]) then Entries(dir, dirents[1..])
    else [PathOf(dir, dirents[0].name) + if dirents[0].kind.Folder? then "/" else ""] + Entries(dir, dirents[1..])
  }

  function Subdirs(dir: Dir, dirents: seq<Dirent>): seq<Dir> {
    if dirents == [] then []
    else if !Kept(dirents[0]) || !dirents[0].kind.Folder? then Subdirs(dir, dirents[1..])
    else [Dir(PathOf(dir, dirents[0].name), dir.depth + 1)] + Subdirs(dir, dirents[1..])
  }

  /** A directory's entries as they are read and sorted; an unreadable one is empty. */
  function Contents(disk: Disk, dir: Dir): seq<Dirent> {
    match disk(dir.relative)
    case None => []
    case Some(dirents) => Sort(dirents)
  }

  function EntriesOf(disk: Disk, dirs: seq<Dir>): seq<string> {
    if dirs == [] then [] else Entries(dirs[0], Contents(disk, dirs[0])) + EntriesOf(disk, dirs[1..])
  }

  function SubdirsOf(disk: Disk, dirs: seq<Dir>): seq<Dir> {
    if dirs == [] then [] else Subdirs(dirs[0], Contents(disk, dirs[0])) + SubdirsOf(disk, dirs[1..])
  }

  /** Everything in these directories, then everything one level down, and so on. */
  function LevelOrder(disk: Disk, dirs: seq<Dir>, levels: nat): seq<string>
    decreases levels
  {
    EntriesOf(disk, dirs) + if levels == 0 then [] else LevelOrder(disk, SubdirsOf(disk, dirs), levels - 1)
  }

  /** Some folder lies on the last level looked at. */
  predicate GoesDeeper(disk: Disk, dirs: seq<Dir>, levels: nat)
    decreases levels
  {
    if levels == 0 then SubdirsOf(disk, dirs) != [] else GoesDeeper(disk, SubdirsOf(disk, dirs), levels - 1)
  }

  /** The directories in the order they are listed in. */
  function DirOrder(disk: Disk, dirs: seq<Dir>, levels: nat): seq<Dir>
    decreases levels
  {
    dirs + if levels == 0 then [] else DirOrder(disk, SubdirsOf(disk, dirs), levels - 1)
  }

  const ROOT := Dir("", 0)

  function LevelsBelowRoot(maxDepth: int): nat { if maxDepth <= 1 then 0 else maxDepth - 1 }

  function Listing(disk: Disk, maxDepth: int): seq<string> { LevelOrder(disk, [ROOT], LevelsBelowRoot(maxDepth)) }

  /** Every directory a walk with enough time looks into, in turn. */
  function Visits(disk: Disk, maxDepth: int): seq<Dir> { DirOrder(disk, [ROOT], LevelsBelowRoot(maxDepth)) }

  lemma {:induction false} EntriesOfAppend(disk: Disk, a: seq<Dir>, b: seq<Dir>)
    ensures EntriesOf(disk, a + b) == EntriesOf(disk, a) + EntriesOf(disk, b)
    ensures SubdirsOf(disk, a + b) == SubdirsOf(disk, a) + SubdirsOf(disk, b)
    decreases |a|
  {
    hide Contents, Entries, Subdirs;
    if a == [] {
      assert a + b == b;
    } else {
      assert (a + b)[1..] == a[1..] + b;
      EntriesOfAppend(disk, a[1..], b);
    }
  }

  /** The listing is what the directories in their order hold. */
  lemma {:induction false} OrderLists(disk: Disk, dirs: seq<Dir>, levels: nat)
    ensures EntriesOf(disk, DirOrder(disk, dirs, levels)) == LevelOrder(disk, dirs, levels)
    decreases levels
  {
    hide EntriesOf, SubdirsOf;
    if levels > 0 {
      OrderLists(disk, SubdirsOf(disk, dirs), levels - 1);
      EntriesOfAppend(disk, dirs, DirOrder(disk, SubdirsOf(disk, dirs), levels - 1));
    } else {
      assert dirs + [] == dirs;
    }
  }

  lemma {:induction false} NothingBelow(disk: Disk, levels: nat)
    ensures LevelOrder(disk, [], levels) == [] && DirOrder(disk, [], levels) == [] && !GoesDeeper(disk, [], levels)
  {
    hide Contents, Entries, Subdirs;
    if levels > 0 {
      NothingBelow(disk, levels - 1);
    }
  }

  /** When no folder lies on the last level, looking deeper finds nothing more. */
  lemma {:induction false} DeeperIsSame(disk: Disk, dirs: seq<Dir>, levels: nat, more: nat)
    requires !GoesDeeper(disk, dirs, levels) && levels <= more
    ensures LevelOrder(disk, dirs, more) == LevelOrder(disk, dirs, levels)
    decreases levels
  {
    hide Contents, Entries, Subdirs, SubdirsOf, EntriesOf;
    if levels == 0 {
      if more > 0 {
        NothingBelow(disk, more - 1);
      }
    } else {
      DeeperIsSame(disk, SubdirsOf(disk, dirs), levels - 1, more - 1);
    }
  }

  // ----- What the listing contains -----

  /** A directory found by going down `k` folders from one of `dirs`. */
  ghost predicate Reached(disk: Disk, dirs: seq<Dir>, dir: Dir, k: nat)
    decreases k
  {
    if k == 0 then dir in dirs
    else exists parent :: Reached(disk, dirs, parent, k - 1) && dir in Subdirs(parent, Contents(disk, parent))
  }

  ghost predicate ListedAt(disk: Disk, dirs: seq<Dir>, path: string, dir: Dir, k: nat) {
    Reached(disk, dirs, dir, k) && path in Entries(dir, Contents(disk, dir))
  }

  /** The entry of some directory at most so many folders down. */
  ghost predicate Listed(disk: Disk, dirs: seq<Dir>, path: string, levels: nat) {
    exists dir, k: nat :: k <= levels && ListedAt(disk, dirs, path, dir, k)
  }

  lemma {:induction false} SubdirsAre(disk: Disk, dirs: seq<Dir>, dir: Dir)
    ensures dir in SubdirsOf(disk, dirs) <==> exists p :: p in dirs && dir in Subdirs(p, Contents(disk, p))
    decreases |dirs|
  {
    hide Contents, Entries, Subdirs;
    if dirs != [] {
      SubdirsAre(disk, dirs[1..], dir);
      if dir in SubdirsOf(disk, dirs[1..]) {
        var p :| p in dirs[1..] && dir in Subdirs(p, Contents(disk, p));
        assert p in dirs;
      }
      assert dirs == [dirs[0]] + dirs[1..];
    }
  }

  lemma {:induction false} EntriesAre(disk: Disk, dirs: seq<Dir>, path: string)
    ensures path in EntriesOf(disk, dirs) <==> exists d :: d in dirs && path in Entries(d, Contents(disk, d))
    decreases |dirs|
  {
    hide Contents, Entries, Subdirs;
    if dirs != [] {
      EntriesAre(disk, dirs[1..], path);
      if path in EntriesOf(disk, dirs[1..]) {
        var d :| d in dirs[1..] && path in Entries(d, Contents(disk, d));
        assert d in dirs;
      }
      assert dirs == [dirs[0]] + dirs[1..];
    }
  }

  /** One step down first or last comes to the same. */
  lemma {:induction false} ReachedBelow(disk: Disk, dirs: seq<Dir>, dir: Dir, k: nat)
    ensures Reached(disk, SubdirsOf(disk, dirs), dir, k) <==> Reached(disk, dirs, dir, k + 1)
    decreases k
  {
    hide Contents, Entries, Subdirs, SubdirsOf;
    if k == 0 {
      SubdirsAre(disk, dirs, dir);
      assert forall p :: Reached(disk, dirs, p, 0) <==> p in dirs;
    } else {
      forall p ensures Reached(disk, SubdirsOf(disk, dirs), p, k - 1) <==> Reached(disk, dirs, p, k) {
        ReachedBelow(disk, dirs, p, k - 1);
      }
    }
  }

  /** Being listed some levels below is being listed one level less below the next. */
  lemma ListedBelow(disk: Disk, dirs: seq<Dir>, path: string, levels: nat)
    requires levels > 0
    ensures Listed(disk, dirs, path, levels)
            <==> Listed(disk, dirs, path, 0) || Listed(disk, SubdirsOf(disk, dirs), path, levels - 1)
  {
    hide ListedAt, SubdirsOf, Entries, Contents;
    var below := SubdirsOf(disk, dirs);
    if dir, k: nat :| k <= levels && ListedAt(disk, dirs, path, dir, k) {
      if k > 0 {
        ListedStep(disk, dirs, path, dir, k - 1);
      }
    }
    if dir, k: nat :| k <= levels - 1 && ListedAt(disk, below, path, dir, k) {
      ListedStep(disk, dirs, path, dir, k);
    }
  }

  lemma ListedStep(disk: Disk, dirs: seq<Dir>, path: string, dir: Dir, k: nat)
    ensures ListedAt(disk, SubdirsOf(disk, dirs), path, dir, k) <==> ListedAt(disk, dirs, path, dir, k + 1)
  {
    hide SubdirsOf, Entries, Contents, Reached;
    ReachedBelow(disk, dirs, dir, k);
  }

  lemma ListedHere(disk: Disk, dirs: seq<Dir>, path: string)
    ensures path in EntriesOf(disk, dirs) <==> Listed(disk, dirs, path, 0)
  {
    hide EntriesOf, Entries, Contents;
    EntriesAre(disk, dirs, path);
    if path in EntriesOf(disk, dirs) {
      var d :| d in dirs && path in Entries(d, Contents(disk, d));
      assert ListedAt(disk, dirs, path, d, 0);
    }
  }

  /** The listing holds exactly the kept entries of the directories that can be reached. */
  lemma {:induction false} ListingIsReachable(disk: Disk, dirs: seq<Dir>, levels: nat, path: string)
    ensures path in LevelOrder(disk, dirs, levels) <==> Listed(disk, dirs, path, levels)
    decreases levels
  {
    hide Listed, EntriesOf, SubdirsOf;
    ListedHere(disk, dirs, path);
    if levels > 0 {
      ListingIsReachable(disk, SubdirsOf(disk, dirs), levels - 1, path);
      ListedBelow(disk, dirs, path, levels);
    }
  }

  // ----- The walk -----

  /** The loop over one directory's entries; `full` means there was one more than may be listed. */
  method ListDirectory(
    dir: Dir, dirents: seq<Dirent>, listed: seq<string>, waiting: seq<Dir>, maxEntries: nat, maxDepth: int)
    returns (entries: seq<string>, queue: seq<Dir>, full: bool, deeper: bool)
    requires |listed| <= maxEntries
    ensures entries <= listed + Entries(dir, dirents) && |entries| <= maxEntries
    ensures waiting <= queue
    ensures !full ==>
              && entries == listed + Entries(dir, dirents)
              && queue == waiting + (if dir.depth + 1 < maxDepth then Subdirs(dir, dirents) else [])
              && deeper == (dir.depth + 1 >= maxDepth && Subdirs(dir, dirents) != [])
    ensures full ==> |entries| == maxEntries && |listed + Entries(dir, dirents)| > maxEntries
  {
    hide Kept;
    entries, queue, full, deeper := listed, waiting, false, false;
    ghost var whole, subdirs := listed + Entries(dir, dirents), Subdirs(dir, dirents);
    var k := 0;
    while k < |dirents|
      invariant 0 <= k <= |dirents| && |entries| <= maxEntries
      invariant whole == entries + Entries(dir, dirents[k..])
      invariant dir.depth + 1 < maxDepth ==> waiting + subdirs == queue + Subdirs(dir, dirents[k..]) && !deeper
      invariant dir.depth + 1 >= maxDepth ==> queue == waiting && (deeper || subdirs == Subdirs(dir, dirents[k..]))
      invariant waiting <= queue && (deeper ==> subdirs != [])
    {
      var dirent := dirents[k];
      assert dirents[k..][0] == dirent && dirents[k..][1..] == dirents[k + 1..];
      k := k + 1;
      if !Kept(dirent) {
        continue;
      }
      if |entries| >= maxEntries {
        return entries, queue, true, deeper;
      }
      var relative := PathOf(dir, dirent.name);
      if dirent.kind.Folder? {
        entries := entries + [relative + "/"];
        if dir.depth + 1 < maxDepth {
          queue := queue + [Dir(relative, dir.depth + 1)];
        } else {
          deeper := true;
        }
      } else {
        assert relative + "" == relative;
        entries := entries + [relative];
      }
    }
  }

  /**
   * What is still to look into: the rest of a level, and the levels below with what the level's
   * start already put in line.
   */
  ghost function Ahead(disk: Disk, level: seq<Dir>, next: seq<Dir>, levels: nat): seq<Dir> {
    level + if levels == 0 then [] else DirOrder(disk, next + SubdirsOf(disk, level), levels - 1)
  }

  ghost predicate DeeperBelow(disk: Disk, level: seq<Dir>, next: seq<Dir>, levels: nat) {
    if levels == 0 then SubdirsOf(disk, level) != [] else GoesDeeper(disk, next + SubdirsOf(disk, level), levels - 1)
  }

  /** Taking the first directory of a level. */
  lemma TakeOne(disk: Disk, level: seq<Dir>, next: seq<Dir>, levels: nat)
    requires level != []
    ensures var sub := Subdirs(level[0], Contents(disk, level[0]));
            var next' := if levels == 0 then next else next + sub;
            && Ahead(disk, level, next, levels) == [level[0]] + Ahead(disk, level[1..], next', levels)
            && (DeeperBelow(disk, level, next, levels)
                <==> (levels == 0 && sub != []) || DeeperBelow(disk, level[1..], next', levels))
  {
    hide Entries, Subdirs, Contents, DirOrder, GoesDeeper;
    var sub := Subdirs(level[0], Contents(disk, level[0]));
    assert next + SubdirsOf(disk, level) == (next + sub) + SubdirsOf(disk, level[1..]);
  }

  /** A finished level gives way to the next. */
  lemma NextLevel(disk: Disk, next: seq<Dir>, levels: nat)
    requires levels > 0
    ensures Ahead(disk, [], next, levels) == Ahead(disk, next, [], levels - 1)
    ensures DeeperBelow(disk, [], next, levels) == DeeperBelow(disk, next, [], levels - 1)
  {
    assert next + [] == next && [] + SubdirsOf(disk, next) == SubdirsOf(disk, next);
  }

  /** Nothing in line, nothing left. */
  lemma NothingLeft(disk: Disk, levels: nat)
    ensures Ahead(disk, [], [], levels) == [] && !DeeperBelow(disk, [], [], levels)
  {
    if levels > 0 {
      NothingBelow(disk, levels - 1);
    }
  }

  /**
   * Where the walk stands: the directories looked into, those in line and those below them together
   * are all there are to look into.
   */
  ghost predicate Standing(
    disk: Disk, maxDepth: int, visited: seq<Dir>, truncated: bool, line: seq<Dir>,
    level: seq<Dir>, next: seq<Dir>, levels: nat)
  {
    && line == level + next && (level == [] || levels == 0 ==> next == [])
    && AtDepth(level, next, levels, maxDepth)
    && Visits(disk, maxDepth) == visited + Ahead(disk, level, next, levels)
    && (GoesDeeper(disk, [ROOT], LevelsBelowRoot(maxDepth)) <==> truncated || DeeperBelow(disk, level, next, levels))
  }

  lemma StartOfWalk(disk: Disk, maxDepth: int)
    ensures Standing(disk, maxDepth, [], false, [ROOT], [ROOT], [], LevelsBelowRoot(maxDepth))
  {
    assert [] + SubdirsOf(disk, [ROOT]) == SubdirsOf(disk, [ROOT]);
  }

  lemma EndOfWalk(
    disk: Disk, maxDepth: int, visited: seq<Dir>, truncated: bool, level: seq<Dir>, next: seq<Dir>, levels: nat)
    requires Standing(disk, maxDepth, visited, truncated, [], level, next, levels)
    ensures visited == Visits(disk, maxDepth)
    ensures truncated <==> GoesDeeper(disk, [ROOT], LevelsBelowRoot(maxDepth))
  {
    hide Visits, GoesDeeper, Ahead, DeeperBelow, AtDepth;
    assert level == [] && next == [];
    NothingLeft(disk, levels);
  }

  /** Looking into the directory at the head of the line leads to the next standing, one directory or one level on. */
  lemma Advance(
    disk: Disk, maxDepth: int, visited: seq<Dir>, truncated: bool, line: seq<Dir>,
    level: seq<Dir>, next: seq<Dir>, levels: nat
  ) returns (level': seq<Dir>, next': seq<Dir>, levels': nat)
    requires Standing(disk, maxDepth, visited, truncated, line, level, next, levels) && line != []
    ensures var dir := line[0];
            var subdirs := Subdirs(dir, Contents(disk, dir));
            && visited + [dir] <= Visits(disk, maxDepth)
            && Standing(disk, maxDepth, visited + [dir],
                        truncated || (dir.depth + 1 >= maxDepth && subdirs != []),
                        line[1..] + (if dir.depth + 1 < maxDepth then subdirs else []), level', next', levels')
    ensures level != [] && (levels' < levels || (levels' == levels && |level'| < |level|))
  {
    hide Entries, Subdirs, Contents, DirOrder, GoesDeeper, SubdirsOf, Ahead, DeeperBelow, AtDepth, Visits;
    var dir := level[0];
    assert dir == line[0] && line[1..] == level[1..] + next;
    TakeOne(disk, level, next, levels);
    var own := Contents(disk, dir);
    DepthTake(level, next, levels, maxDepth, own);
    level', next', levels' := level[1..], if levels == 0 then next else next + Subdirs(dir, own), levels;
    var rest := Ahead(disk, level', next', levels);
    assert visited + ([dir] + rest) == (visited + [dir]) + rest;
    if level' == [] && next' != [] {
      DepthShift(next', levels, maxDepth);
      NextLevel(disk, next', levels);
      level', next', levels' := next', [], levels - 1;
    }
  }

  // ----- What a walk answers -----

  /** The first number from `k` on, below `n`, at which time is up; `n` when there is none. */
  function FirstLate(late: nat -> bool, k: nat, n: nat): (h: nat)
    requires k <= n
    ensures k <= h <= n && (h < n ==> late(h)) && forall j :: k <= j < h ==> !late(j)
    decreases n - k
  {
    if k == n || late(k) then k else FirstLate(late, k + 1, n)
  }

  /** How many of the directories the walk has time to look into. */
  function Reaches(disk: Disk, maxDepth: int, late: nat -> bool): (n: nat)
    ensures n <= |Visits(disk, maxDepth)|
  {
    FirstLate(late, 0, |Visits(disk, maxDepth)|)
  }

  /** The directories time suffices for. */
  function Seen(disk: Disk, maxDepth: int, late: nat -> bool): seq<Dir> {
    Visits(disk, maxDepth)[..Reaches(disk, maxDepth, late)]
  }

  /** Those it does not. */
  function Unseen(disk: Disk, maxDepth: int, late: nat -> bool): seq<Dir> {
    Visits(disk, maxDepth)[Reaches(disk, maxDepth, late)..]
  }

  /**
   * The answer: the entries of the directories seen, up to the limit; truncated when there were
   * more, when a directory was not seen, or when a folder lies at the last depth.
   */
  ghost predicate Answer(
    disk: Disk, maxEntries: nat, maxDepth: int, late: nat -> bool, entries: seq<string>, truncated: bool)
  {
    var found := EntriesOf(disk, Seen(disk, maxDepth, late));
    && entries == found[..if |found| <= maxEntries then |found| else maxEntries]
    && (truncated <==> || |found| > maxEntries || Unseen(disk, maxDepth, late) != []
                       || GoesDeeper(disk, [ROOT], LevelsBelowRoot(maxDepth)))
  }

  /** What a walk that does not run out of time answers. */
  ghost predicate InTime(disk: Disk, maxEntries: nat, maxDepth: int, entries: seq<string>, truncated: bool) {
    var all := Listing(disk, maxDepth);
    && entries == all[..if |all| <= maxEntries then |all| else maxEntries]
    && (truncated <==> |all| > maxEntries || GoesDeeper(disk, [ROOT], LevelsBelowRoot(maxDepth)))
  }

  /** What is seen and what is not make up the listing. */
  lemma SeenAndUnseen(disk: Disk, maxDepth: int, late: nat -> bool)
    ensures Listing(disk, maxDepth)
            == EntriesOf(disk, Seen(disk, maxDepth, late)) + EntriesOf(disk, Unseen(disk, maxDepth, late))
    ensures Unseen(disk, maxDepth, late) == [] ==>
              EntriesOf(disk, Seen(disk, maxDepth, late)) == Listing(disk, maxDepth)
  {
    hide DirOrder, LevelOrder, EntriesOf;
    var (seen, unseen) := (Seen(disk, maxDepth, late), Unseen(disk, maxDepth, late));
    OrderLists(disk, [ROOT], LevelsBelowRoot(maxDepth));
    EntriesOfAppend(disk, seen, unseen);
    assert seen + unseen == Visits(disk, maxDepth);
    assert unseen == [] ==> seen == Visits(disk, maxDepth);
  }

  /** An answer is a prefix of the complete listing; with time enough, as long as the limit allows. */
  lemma AnswerMeans(
    disk: Disk, maxEntries: nat, maxDepth: int, late: nat -> bool, entries: seq<string>, truncated: bool)
    requires Answer(disk, maxEntries, maxDepth, late, entries, truncated)
    ensures entries <= Listing(disk, maxDepth) && |entries| <= maxEntries
    ensures (forall n :: !late(n)) ==> InTime(disk, maxEntries, maxDepth, entries, truncated)
    ensures !truncated ==> entries == Listing(disk, maxDepth) && !GoesDeeper(disk, [ROOT], LevelsBelowRoot(maxDepth))
  {
    hide Listing, EntriesOf, GoesDeeper, Visits;
    SeenAndUnseen(disk, maxDepth, late);
  }

  lemma TimedOut(disk: Disk, maxDepth: int, late: nat -> bool, visited: seq<Dir>)
    requires visited < Visits(disk, maxDepth) && late(|visited|) && forall n: nat :: n < |visited| ==> !late(n)
    ensures Seen(disk, maxDepth, late) == visited && Unseen(disk, maxDepth, late) != []
  {
    hide Visits;
  }

  lemma RestIsUnseen(disk: Disk, maxDepth: int, late: nat -> bool, seen: seq<Dir>, rest: seq<Dir>)
    requires Visits(disk, maxDepth) == seen + rest && Seen(disk, maxDepth, late) == seen
    ensures Unseen(disk, maxDepth, late) == rest
  {
    hide Visits;
    assert Seen(disk, maxDepth, late) + Unseen(disk, maxDepth, late) == Visits(disk, maxDepth);
  }

  lemma WithinLimit(disk: Disk, maxEntries: nat, maxDepth: int, late: nat -> bool, entries: seq<string>)
    requires Unseen(disk, maxDepth, late) != []
    requires entries == EntriesOf(disk, Seen(disk, maxDepth, late)) && |entries| <= maxEntries
    ensures Answer(disk, maxEntries, maxDepth, late, entries, true)
  {
  }

  lemma WholeAnswer(
    disk: Disk, maxEntries: nat, maxDepth: int, late: nat -> bool, entries: seq<string>, truncated: bool)
    requires Unseen(disk, maxDepth, late) == []
    requires entries == EntriesOf(disk, Seen(disk, maxDepth, late)) && |entries| <= maxEntries
    requires truncated <==> GoesDeeper(disk, [ROOT], LevelsBelowRoot(maxDepth))
    ensures Answer(disk, maxEntries, maxDepth, late, entries, truncated)
  {
  }

  lemma SawAll(disk: Disk, maxDepth: int, late: nat -> bool)
    requires forall n: nat :: n < |Visits(disk, maxDepth)| ==> !late(n)
    ensures Seen(disk, maxDepth, late) == Visits(disk, maxDepth) && Unseen(disk, maxDepth, late) == []
  {
    hide Visits;
  }

  lemma FilledUp(
    disk: Disk, maxEntries: nat, maxDepth: int, late: nat -> bool, visited: seq<Dir>, entries: seq<string>)
    requires visited <= Visits(disk, maxDepth) && forall n: nat :: n < |visited| ==> !late(n)
    requires entries <= EntriesOf(disk, visited) && |entries| == maxEntries < |EntriesOf(disk, visited)|
    ensures Answer(disk, maxEntries, maxDepth, late, entries, true)
  {
    hide Visits, EntriesOf, GoesDeeper;
    var seen := Seen(disk, maxDepth, late);
    assert seen == visited + seen[|visited|..];
    EntriesOfAppend(disk, visited, seen[|visited|..]);
  }

  /**
   * `listWorkspaceFiles`, with the clock's answer at each directory. The entries are always a
   * prefix of the complete breadth-first listing, cut only by the entry limit when time does not
   * run out; and the result says "not truncated" exactly when time did not run out, the listing
   * fits, and no folder lies at the last depth.
   */
  method ListWorkspaceFiles(disk: Disk, maxEntries: nat, maxDepth: int, late: nat -> bool)
    returns (entries: seq<string>, truncated: bool)
    ensures Answer(disk, maxEntries, maxDepth, late, entries, truncated)
    ensures entries <= Listing(disk, maxDepth) && |entries| <= maxEntries
    ensures (forall n :: !late(n)) ==> InTime(disk, maxEntries, maxDepth, entries, truncated)
    ensures !truncated ==> entries == Listing(disk, maxDepth) && !GoesDeeper(disk, [ROOT], LevelsBelowRoot(maxDepth))
  {
    hide Entries, EntriesOf, Subdirs, Contents, Listing, GoesDeeper, Standing, Visits, Answer, InTime, Seen, Unseen;
    entries, truncated := [], false;
    var queue := [ROOT];
    ghost var level, next: seq<Dir>, levels := [ROOT], [], LevelsBelowRoot(maxDepth);
    StartOfWalk(disk, maxDepth);
    var head := 0;
    NoEntries(disk);
    while head < |queue|
      invariant 0 <= head <= |queue| && |entries| <= maxEntries && entries == EntriesOf(disk, queue[..head])
      invariant forall n: nat :: n < head ==> !late(n)
      invariant Standing(disk, maxDepth, queue[..head], truncated, queue[head..], level, next, levels)
      decreases levels, |level|
    {
      var dir := queue[head];
      var dirents := Contents(disk, dir);
      ghost var level', next', levels' :=
        Advance(disk, maxDepth, queue[..head], truncated, queue[head..], level, next, levels);
      if late(head) {
        TimedOut(disk, maxDepth, late, queue[..head]);
        WithinLimit(disk, maxEntries, maxDepth, late, entries);
        AnswerMeans(disk, maxEntries, maxDepth, late, entries, true);
        return entries, true;
      }
      level, next, levels := level', next', levels';
      ghost var subdirs := if dir.depth + 1 < maxDepth then Subdirs(dir, dirents) else [];
      assert (queue + subdirs)[head + 1..] == queue[head..][1..] + subdirs;
      assert (queue + subdirs)[..head + 1] == queue[..head] + [dir];
      OneMore(disk, queue[..head], dir);
      ghost var was := queue;
      var full, deeper;
      entries, queue, full, deeper := ListDirectory(dir, dirents, entries, queue, maxEntries, maxDepth);
      if full {
        FilledUp(disk, maxEntries, maxDepth, late, was[..head] + [dir], entries);
        AnswerMeans(disk, maxEntries, maxDepth, late, entries, true);
        return entries, true;
      }
      truncated := truncated || deeper;
      head := head + 1;
    }
    assert queue[head..] == [] && queue[..head] == queue;
    EndOfWalk(disk, maxDepth, queue, truncated, level, next, levels);
    SawAll(disk, maxDepth, late);
    WholeAnswer(disk, maxEntries, maxDepth, late, entries, truncated);
    AnswerMeans(disk, maxEntries, maxDepth, late, entries, truncated);
  }

  lemma NoEntries(disk: Disk)
    ensures EntriesOf(disk, []) == []
  {
  }

  lemma OneMore(disk: Disk, dirs: seq<Dir>, dir: Dir)
    ensures EntriesOf(disk, dirs + [dir]) == EntriesOf(disk, dirs) + Entries(dir, Contents(disk, dir))
  {
    hide Entries, Contents;
    EntriesOfAppend(disk, dirs, [dir]);
    assert [dir][1..] == [];
  }

  /** The directories of a level lie at one depth, those in line for the next one below it. */
  ghost predicate AtDepth(level: seq<Dir>, next: seq<Dir>, levels: nat, maxDepth: int) {
    && (forall d :: d in level ==>
          (d.depth + 1 < maxDepth <==> levels > 0) && (levels > 0 ==> levels == maxDepth - 1 - d.depth))
    && (forall d :: d in next ==> levels > 0 && levels == maxDepth - d.depth)
  }

  lemma DepthTake(level: seq<Dir>, next: seq<Dir>, levels: nat, maxDepth: int, dirents: seq<Dirent>)
    requires AtDepth(level, next, levels, maxDepth) && level != []
    ensures AtDepth(level[1..], if levels == 0 then next else next + Subdirs(level[0], dirents), levels, maxDepth)
    ensures level[0].depth + 1 < maxDepth <==> levels > 0
  {
    hide Subdirs;
    DepthsBelow(level[0], dirents);
  }

  lemma DepthShift(next: seq<Dir>, levels: nat, maxDepth: int)
    requires AtDepth([], next, levels, maxDepth) && next != []
    ensures levels > 0 && AtDepth(next, [], levels - 1, maxDepth)
  {
    assert next[0] in next;
  }

  lemma {:induction false} DepthsBelow(dir: Dir, dirents: seq<Dirent>)
    ensures forall d :: d in Subdirs(dir, dirents) ==> d.depth == dir.depth + 1
    decreases |dirents|
  {
    if dirents != [] {
      DepthsBelow(dir, dirents[1..]);
    }
  }

  /** A listing that is not called truncated is the whole tree, however deep one looks. */
  lemma NotTruncatedIsAll(disk: Disk, maxDepth: int, deeper: int)
    requires !GoesDeeper(disk, [ROOT], LevelsBelowRoot(maxDepth)) && maxDepth <= deeper
    ensures Listing(disk, deeper) == Listing(disk, maxDepth)
  {
    DeeperIsSame(disk, [ROOT], LevelsBelowRoot(maxDepth), LevelsBelowRoot(deeper));
  }

  // ----- Called truncated though nothing is missing -----

  /** The directories some levels further down. */
  function Level(disk: Disk, dirs: seq<Dir>, k: nat): seq<Dir>
    decreases k
  {
    if k == 0 then dirs else Level(disk, SubdirsOf(disk, dirs), k - 1)
  }

  /** The folders that lie on the last level looked at. */
  function Unvisited(disk: Disk, maxDepth: int): seq<Dir> {
    Level(disk, [ROOT], LevelsBelowRoot(maxDepth) + 1)
  }

  lemma {:induction false} DeeperIsNextLevel(disk: Disk, dirs: seq<Dir>, levels: nat)
    ensures GoesDeeper(disk, dirs, levels) <==> Level(disk, dirs, levels + 1) != []
    decreases levels
  {
    hide SubdirsOf;
    if levels > 0 {
      DeeperIsNextLevel(disk, SubdirsOf(disk, dirs), levels - 1);
    } else {
      assert Level(disk, SubdirsOf(disk, dirs), 0) == SubdirsOf(disk, dirs);
    }
  }

  lemma OneLevel(disk: Disk, dirs: seq<Dir>, levels: nat)
    requires levels > 0
    ensures LevelOrder(disk, dirs, levels)
            == EntriesOf(disk, dirs) + LevelOrder(disk, SubdirsOf(disk, dirs), levels - 1)
  {
  }

  lemma LastLevel(disk: Disk, dirs: seq<Dir>)
    ensures LevelOrder(disk, dirs, 0) == EntriesOf(disk, dirs)
  {
  }

  lemma NextDirectories(disk: Disk, dirs: seq<Dir>, levels: nat)
    ensures Level(disk, dirs, levels + 1) == Level(disk, SubdirsOf(disk, dirs), levels)
    ensures Level(disk, SubdirsOf(disk, dirs), 0) == SubdirsOf(disk, dirs)
  {
  }

  /** Looking deeper adds the levels below behind what was listed. */
  lemma {:induction false} DeeperAdds(disk: Disk, dirs: seq<Dir>, levels: nat, more: nat)
    requires levels < more
    ensures LevelOrder(disk, dirs, more)
            == LevelOrder(disk, dirs, levels) + LevelOrder(disk, Level(disk, dirs, levels + 1), more - levels - 1)
    decreases levels
  {
    hide SubdirsOf, EntriesOf, LevelOrder, Level;
    var below := SubdirsOf(disk, dirs);
    OneLevel(disk, dirs, more);
    NextDirectories(disk, dirs, levels);
    if levels > 0 {
      OneLevel(disk, dirs, levels);
      DeeperAdds(disk, below, levels - 1, more - 1);
    } else {
      LastLevel(disk, dirs);
    }
  }

  /** Folders are entries, so directories without entries have nothing below them. */
  lemma {:induction false} EmptyIsLast(disk: Disk, dirs: seq<Dir>, levels: nat)
    requires EntriesOf(disk, dirs) == []
    ensures LevelOrder(disk, dirs, levels) == []
    decreases levels
  {
    hide Contents, Entries, Subdirs, EntriesOf, SubdirsOf;
    NoSubdirs(disk, dirs);
    if levels > 0 {
      NothingBelow(disk, levels - 1);
    }
  }

  lemma {:induction false} NoSubdirs(disk: Disk, dirs: seq<Dir>)
    requires EntriesOf(disk, dirs) == []
    ensures SubdirsOf(disk, dirs) == []
    decreases |dirs|
  {
    hide Contents;
    if dirs != [] {
      NoSubdirs(disk, dirs[1..]);
      NoEntriesNoSubdirs(dirs[0], Contents(disk, dirs[0]));
    }
  }

  lemma {:induction false} NoEntriesNoSubdirs(dir: Dir, dirents: seq<Dirent>)
    requires Entries(dir, dirents) == []
    ensures Subdirs(dir, dirents) == []
    decreases |dirents|
  {
    hide Kept;
    if dirents != [] {
      NoEntriesNoSubdirs(dir, dirents[1..]);
    }
  }

  /**
   * A listing is called truncated although no look, however deep and with whatever time, would add
   * to it exactly when it fits, some directory was not seen in time or some folder lies at the last
   * depth, and none of these has a listed entry.
   */
  lemma TruncatedForNothing(
    disk: Disk, maxEntries: nat, maxDepth: int, late: nat -> bool, entries: seq<string>, truncated: bool)
    requires Answer(disk, maxEntries, maxDepth, late, entries, truncated)
    ensures var missed := Unseen(disk, maxDepth, late) + Unvisited(disk, maxDepth);
            (truncated && forall deeper :: deeper >= maxDepth ==> Listing(disk, deeper) == entries)
            <==> |Listing(disk, maxDepth)| <= maxEntries && missed != [] && EntriesOf(disk, missed) == []
  {
    hide EntriesOf, SubdirsOf, GoesDeeper, Level, LevelOrder, Seen, Unseen;
    var (levels, below) := (LevelsBelowRoot(maxDepth), Unvisited(disk, maxDepth));
    var all := Listing(disk, maxDepth);
    DeeperIsNextLevel(disk, [ROOT], levels);
    SeenAndUnseen(disk, maxDepth, late);
    EntriesOfAppend(disk, Unseen(disk, maxDepth, late), below);
    if truncated && forall deeper :: deeper >= maxDepth ==> Listing(disk, deeper) == entries {
      assert all == entries;
      assert Listing(disk, levels + 2) == entries;
      DeeperAdds(disk, [ROOT], levels, levels + 1);
      LastLevel(disk, below);
    }
    if |all| <= maxEntries && EntriesOf(disk, below) == [] && EntriesOf(disk, Unseen(disk, maxDepth, late)) == [] {
      forall deeper | deeper >= maxDepth ensures Listing(disk, deeper) == entries {
        var more := LevelsBelowRoot(deeper);
        if levels < more {
          DeeperAdds(disk, [ROOT], levels, more);
          EmptyIsLast(disk, below, more - levels - 1);
        }
      }
    }
  }

  function NeverLate(): nat -> bool {
    n => false
  }

  /** Time is up before the second directory. */
  function LateAtOne(): nat -> bool {
    n => n == 1
  }

  /** A disk with one empty folder. */
  function OneFolder(): Disk {
    relative => Some(if relative == "" then [Dirent("a", Folder)] else [])
  }

  /** Looked at to a depth of one, its listing is complete and called truncated. */
  lemma EmptyFolderExample(entries: seq<string>, truncated: bool)
    requires Answer(OneFolder(), 1, 1, NeverLate(), entries, truncated)
    ensures entries == ["a/"] && truncated
    ensures forall deeper :: deeper >= 1 ==> Listing(OneFolder(), deeper) == entries
  {
    hide EntriesOf, Seen, Unseen, Level, Visits;
    OneFolderLevels();
    SawAll(OneFolder(), 1, NeverLate());
    SeenAndUnseen(OneFolder(), 1, NeverLate());
    assert [] + [Dir("a", 1)] == [Dir("a", 1)];
    TruncatedForNothing(OneFolder(), 1, 1, NeverLate(), entries, truncated);
  }

  /** So it is at the usual depth when time is up before the folder. */
  lemma LateFolderExample(entries: seq<string>, truncated: bool)
    requires Answer(OneFolder(), 10, 16, LateAtOne(), entries, truncated)
    ensures entries == ["a/"] && truncated
    ensures forall deeper :: deeper >= 16 ==> Listing(OneFolder(), deeper) == entries
  {
    hide EntriesOf, Seen, Unseen, Level, Visits;
    var a := Dir("a", 1);
    OneFolderBelow(15);
    assert Visits(OneFolder(), 16) == [ROOT] + [a] by {
      OneFolderVisits();
    }
    TimedOut(OneFolder(), 16, LateAtOne(), [ROOT]);
    SeenAndUnseen(OneFolder(), 16, LateAtOne());
    RestIsUnseen(OneFolder(), 16, LateAtOne(), [ROOT], [a]);
    assert [a] + Unvisited(OneFolder(), 16) == [a];
    TruncatedForNothing(OneFolder(), 10, 16, LateAtOne(), entries, truncated);
  }

  /** The one directory below the root, and nothing below that. */
  lemma OneFolderBelow(levels: nat)
    requires levels > 0
    ensures DirOrder(OneFolder(), [ROOT], levels) == [ROOT, Dir("a", 1)]
    ensures Level(OneFolder(), [ROOT], levels + 1) == []
    ensures EntriesOf(OneFolder(), [ROOT]) == ["a/"] && EntriesOf(OneFolder(), [Dir("a", 1)]) == []
  {
    hide SubdirsOf, EntriesOf, Level, DirOrder, OneFolder;
    var (disk, a) := (OneFolder(), Dir("a", 1));
    OneFolderLevels();
    NoSubdirs(disk, [a]);
    NextDirectories(disk, [ROOT], levels);
    NextDirectories(disk, [a], levels - 1);
    NothingOnLevels(disk, levels - 1);
    DirStep(disk, [ROOT], levels);
    LastDirs(disk, [a], levels - 1);
    assert [ROOT] + [a] == [ROOT, a];
  }

  lemma DirStep(disk: Disk, dirs: seq<Dir>, levels: nat)
    requires levels > 0
    ensures DirOrder(disk, dirs, levels) == dirs + DirOrder(disk, SubdirsOf(disk, dirs), levels - 1)
  {
  }

  lemma LastDirs(disk: Disk, dirs: seq<Dir>, levels: nat)
    requires SubdirsOf(disk, dirs) == []
    ensures DirOrder(disk, dirs, levels) == dirs
  {
    hide SubdirsOf;
    if levels > 0 {
      NothingBelow(disk, levels - 1);
    }
  }

  lemma OneFolderVisits()
    ensures Visits(OneFolder(), 16) == [ROOT] + [Dir("a", 1)]
  {
    hide DirOrder;
    OneFolderBelow(15);
  }

  lemma {:induction false} NothingOnLevels(disk: Disk, k: nat)
    ensures Level(disk, [], k) == []
    decreases k
  {
    if k > 0 {
      NothingOnLevels(disk, k - 1);
    }
  }

  lemma OneFolderLevels()
    ensures Listing(OneFolder(), 1) == ["a/"]
    ensures Unvisited(OneFolder(), 1) == [Dir("a", 1)] && EntriesOf(OneFolder(), [Dir("a", 1)]) == []
    ensures SubdirsOf(OneFolder(), [ROOT]) == [Dir("a", 1)] && EntriesOf(OneFolder(), [ROOT]) == ["a/"]
  {
    var (disk, a) := (OneFolder(), Dirent("a", Folder));
    assert Kept(a);
    assert [a][1..] == [] && Entries(ROOT, []) == [] && Subdirs(ROOT, []) == [];
    assert Sort([]) == [] && Sort([a]) == [a];
    assert Contents(disk, ROOT) == [a] && Contents(disk, Dir("a", 1)) == [];
    assert PathOf(ROOT, "a") == "a" && "a" + "/" == "a/";
    assert Entries(ROOT, [a]) == ["a/"] && Subdirs(ROOT, [a]) == [Dir("a", 1)];
    assert SubdirsOf(disk, [ROOT]) == [Dir("a", 1)];
    assert [ROOT][1..] == [] && EntriesOf(disk, []) == [] && EntriesOf(disk, [ROOT]) == ["a/"];
    LastLevel(disk, [ROOT]);
    assert Level(disk, [Dir("a", 1)], 0) == [Dir("a", 1)];
  }

  // ----- The listing as paths -----

  /** A directory's entry, by the directory's path. */
  ghost predicate HasEntry(disk: Disk, at: string, name: string, kind: Kind) {
    disk(at).Some? && Dirent(name, kind) in disk(at).value
  }

  /** No control characters in the name. */
  predicate Printable(name: string) {
    forall i :: 0 <= i < |name| ==> name[i] > '\U{1f}' && name[i] != '\U{7f}'
  }

  /** Folders of version control, of dependencies, of build output and of caches. */
  predicate IsIgnored(name: string) {
    || name in {".git", ".hg", ".svn"}
    || name in {"node_modules", ".venv", "venv"}
    || name in {"build", "dist", "target", "coverage", ".svelte-kit", ".next"}
    || name in {".turbo", ".cache", "__pycache__"}
  }

  /** Names of folders, each in the one before, that the listing goes into. */
  ghost predicate LeadsDown(disk: Disk, names: seq<string>) {
    forall j :: 0 <= j < |names| ==>
      HasEntry(disk, Join(names[..j], "/"), names[j], Folder) && Printable(names[j]) && !IsIgnored(names[j])
  }

  /** A path of a file or, with a slash behind it, of a folder, some folders down from the root. */
  ghost predicate IsListedPath(disk: Disk, path: string, folders: seq<string>, name: string) {
    && LeadsDown(disk, folders) && Printable(name)
    && ((HasEntry(disk, Join(folders, "/"), name, File) && path == Join(folders + [name], "/"))
        || (HasEntry(disk, Join(folders, "/"), name, Folder) && !IsIgnored(name)
            && path == Join(folders + [name], "/") + "/"))
  }

  /** Entries have names. */
  ghost predicate Named(disk: Disk) {
    forall at, d :: disk(at).Some? && d in disk(at).value ==> d.name != ""
  }

  lemma {:induction false} JoinMore(names: seq<string>, name: string)
    ensures Join(names + [name], "/") == if names == [] then name else Join(names, "/") + "/" + name
    decreases |names|
  {
    if |names| == 0 {
      assert names + [name] == [name];
    } else {
      assert (names + [name])[1..] == names[1..] + [name];
      JoinMore(names[1..], name);
    }
  }

  lemma {:induction false} JoinIsSomething(names: seq<string>)
    requires forall j :: 0 <= j < |names| ==> names[j] != ""
    ensures Join(names, "/") == "" <==> names == []
  {
  }

  /** The folder at the end of these names. */
  function DirAt(names: seq<string>): Dir {
    Dir(Join(names, "/"), |names|)
  }

  lemma PathAt(names: seq<string>, name: string)
    requires forall j :: 0 <= j < |names| ==> names[j] != ""
    ensures PathOf(DirAt(names), name) == Join(names + [name], "/")
  {
    JoinMore(names, name);
    JoinIsSomething(names);
  }

  lemma {:induction false} SubdirsHold(dir: Dir, dirents: seq<Dirent>, sub: Dir)
    ensures sub in Subdirs(dir, dirents) <==>
            exists d :: d in dirents && Kept(d) && d.kind.Folder? && sub == Dir(PathOf(dir, d.name), dir.depth + 1)
    decreases |dirents|
  {
    hide Kept, PathOf;
    if dirents != [] {
      SubdirsHold(dir, dirents[1..], sub);
      assert dirents == [dirents[0]] + dirents[1..];
    }
  }

  lemma {:induction false} EntriesHold(dir: Dir, dirents: seq<Dirent>, path: string)
    ensures path in Entries(dir, dirents) <==>
            exists d :: d in dirents && Kept(d) && path == PathOf(dir, d.name) + if d.kind.Folder? then "/" else ""
    decreases |dirents|
  {
    hide Kept, PathOf;
    if dirents != [] {
      EntriesHold(dir, dirents[1..], path);
      assert dirents == [dirents[0]] + dirents[1..];
    }
  }

  lemma ContentsHold(disk: Disk, dir: Dir, d: Dirent)
    ensures d in Contents(disk, dir) <==> disk(dir.relative).Some? && d in disk(dir.relative).value
  {
    hide Sort;
    if disk(dir.relative).Some? {
      SortSorts(disk(dir.relative).value);
      assert d in multiset(Contents(disk, dir)) <==> d in multiset(disk(dir.relative).value);
    }
  }

  lemma KeptMeans(d: Dirent)
    ensures Kept(d) <==> Printable(d.name) && (d.kind.File? || (d.kind.Folder? && !IsIgnored(d.name)))
  {
  }

  lemma NamesAreSomething(disk: Disk, names: seq<string>)
    requires Named(disk) && LeadsDown(disk, names)
    ensures forall j :: 0 <= j < |names| ==> names[j] != ""
  {
  }

  /** One folder down. */
  lemma StepDown(disk: Disk, names: seq<string>, dir: Dir)
    requires Named(disk) && LeadsDown(disk, names)
    ensures dir in Subdirs(DirAt(names), Contents(disk, DirAt(names))) <==>
            exists name :: LeadsDown(disk, names + [name]) && dir == DirAt(names + [name])
  {
    hide Subdirs, Contents, Kept, Printable, Join, PathOf, IsIgnored;
    var at := DirAt(names);
    NamesAreSomething(disk, names);
    SubdirsHold(at, Contents(disk, at), dir);
    if d: Dirent :| d in Contents(disk, at) && Kept(d) && d.kind.Folder?
                    && dir == Dir(PathOf(at, d.name), at.depth + 1) {
      ContentsHold(disk, at, d);
      KeptMeans(d);
      PathAt(names, d.name);
      LeadsOn(disk, names, d.name);
    }
    if name: string :| LeadsDown(disk, names + [name]) && dir == DirAt(names + [name]) {
      var d := Dirent(name, Folder);
      LeadsOn(disk, names, name);
      ContentsHold(disk, at, d);
      KeptMeans(d);
      PathAt(names, name);
    }
  }

  lemma LeadsOn(disk: Disk, names: seq<string>, name: string)
    requires LeadsDown(disk, names)
    ensures LeadsDown(disk, names + [name]) <==>
            HasEntry(disk, Join(names, "/"), name, Folder) && Printable(name) && !IsIgnored(name)
  {
    hide Join, Printable, HasEntry, IsIgnored;
    var all := names + [name];
    assert forall j :: 0 <= j < |names| ==> all[..j] == names[..j];
    assert all[..|names|] == names && all[|names|] == name;
  }

  lemma LeadsUp(disk: Disk, names: seq<string>)
    requires LeadsDown(disk, names) && names != []
    ensures LeadsDown(disk, names[..|names| - 1]) && names[..|names| - 1] + [names[|names| - 1]] == names
  {
    hide Join, Printable, HasEntry, IsIgnored;
    var front := names[..|names| - 1];
    assert forall j :: 0 <= j < |front| ==> front[..j] == names[..j];
  }

  /** The directory lies at the end of so many such names. */
  ghost predicate ByNames(disk: Disk, dir: Dir, k: nat) {
    exists names :: |names| == k && LeadsDown(disk, names) && dir == DirAt(names)
  }

  lemma NamesOneDown(disk: Disk, parent: Dir, dir: Dir, k: nat)
    requires Named(disk) && ByNames(disk, parent, k) && dir in Subdirs(parent, Contents(disk, parent))
    ensures ByNames(disk, dir, k + 1)
  {
    hide Subdirs, Contents, LeadsDown;
    var names :| |names| == k && LeadsDown(disk, names) && parent == DirAt(names);
    StepDown(disk, names, dir);
  }

  lemma NamesOneUp(disk: Disk, dir: Dir, k: nat) returns (parent: Dir)
    requires Named(disk) && ByNames(disk, dir, k + 1)
    ensures ByNames(disk, parent, k) && dir in Subdirs(parent, Contents(disk, parent))
  {
    hide Subdirs, Contents, LeadsDown;
    var names :| |names| == k + 1 && LeadsDown(disk, names) && dir == DirAt(names);
    LeadsUp(disk, names);
    parent := DirAt(names[..k]);
    StepDown(disk, names[..k], dir);
  }

  /** The directories reached are the ends of such names. */
  lemma {:induction false} ReachedByNames(disk: Disk, dir: Dir, k: nat)
    requires Named(disk)
    ensures Reached(disk, [ROOT], dir, k) <==> ByNames(disk, dir, k)
    decreases k
  {
    hide Subdirs, Contents, ByNames, Named, IsIgnored;
    if k == 0 {
      OnlyRoot(disk, dir);
    } else {
      if Reached(disk, [ROOT], dir, k) {
        var parent :| Reached(disk, [ROOT], parent, k - 1) && dir in Subdirs(parent, Contents(disk, parent));
        ReachedByNames(disk, parent, k - 1);
        NamesOneDown(disk, parent, dir, k - 1);
      }
      if ByNames(disk, dir, k) {
        var parent := NamesOneUp(disk, dir, k - 1);
        ReachedByNames(disk, parent, k - 1);
      }
    }
  }

  lemma OnlyRoot(disk: Disk, dir: Dir)
    ensures dir == ROOT <==> ByNames(disk, dir, 0)
  {
    assert LeadsDown(disk, []) && DirAt([]) == ROOT;
    assert forall names: seq<string> :: |names| == 0 ==> names == [];
  }

  lemma EntriesByName(disk: Disk, names: seq<string>, path: string)
    requires Named(disk) && LeadsDown(disk, names)
    ensures path in Entries(DirAt(names), Contents(disk, DirAt(names))) <==>
            exists name :: IsListedPath(disk, path, names, name)
  {
    hide Entries, Contents, Kept, Printable, Join, PathOf, LeadsDown, IsIgnored;
    var at := DirAt(names);
    NamesAreSomething(disk, names);
    EntriesHold(at, Contents(disk, at), path);
    if d: Dirent :| d in Contents(disk, at) && Kept(d)
                    && path == PathOf(at, d.name) + if d.kind.Folder? then "/" else "" {
      ContentsHold(disk, at, d);
      KeptMeans(d);
      PathAt(names, d.name);
      assert IsListedPath(disk, path, names, d.name);
    }
    if name: string :| IsListedPath(disk, path, names, name) {
      var d := Dirent(name, if HasEntry(disk, Join(names, "/"), name, File) && path == Join(names + [name], "/")
                            then File else Folder);
      ContentsHold(disk, at, d);
      KeptMeans(d);
      PathAt(names, name);
      assert path + "" == path;
    }
  }

  /**
   * What the complete listing holds, as paths: every file or folder with a printable name, in the
   * root or at most so many folders below, none of them ignored; a folder with a slash behind it.
   */
  lemma ListingAsPaths(disk: Disk, maxDepth: int, path: string)
    requires Named(disk)
    ensures path in Listing(disk, maxDepth) <==>
            exists folders, name :: |folders| < (if maxDepth > 1 then maxDepth else 1)
                                    && IsListedPath(disk, path, folders, name)
  {
    hide Reached, Entries, Contents, IsListedPath, LevelOrder, LeadsDown;
    var levels := LevelsBelowRoot(maxDepth);
    ListingIsReachable(disk, [ROOT], levels, path);
    if dir, k: nat :| k <= levels && ListedAt(disk, [ROOT], path, dir, k) {
      ReachedByNames(disk, dir, k);
      var folders :| |folders| == k && LeadsDown(disk, folders) && dir == DirAt(folders);
      EntriesByName(disk, folders, path);
    }
    if folders, name :| |folders| <= levels && IsListedPath(disk, path, folders, name) {
      PathLeads(disk, path, folders, name);
      EntriesByName(disk, folders, path);
      ReachedByNames(disk, DirAt(folders), |folders|);
      assert ListedAt(disk, [ROOT], path, DirAt(folders), |folders|);
    }
  }

  lemma PathLeads(disk: Disk, path: string, folders: seq<string>, name: string)
    requires IsListedPath(disk, path, folders, name)
    ensures LeadsDown(disk, folders)
  {
  }
}
