/**
 * Prompt fragments: lines that import another text by name are replaced by that text, in which
 * imports are replaced in turn, down to a depth and never a text inside itself.
 */
module FragmentExpand {
  import opened Text
  import opened Wrappers

  /** The text of a name, when there is one. */
  type Lookup = string -> Option<string>

  // ----- Lines -----

  predicate NameChar(c: char) {
    'a' <= c <= 'z' || 'A' <= c <= 'Z' || '0' <= c <= '9' || c == '_' || c == '/' || c == '-'
  }

  predicate IsName(s: string) {
    s != "" && forall i :: 0 <= i < |s| ==> NameChar(s[i])
  }

  /** The name an import line asks for; nothing else may stand on the line. */
  function ImportName(line: string): (r: Option<string>)
    ensures r.Some? ==> IsName(r.value)
  {
    var t := Trim(line);
    if |t| > 7 && t[..7] == "@import" && IsSpace(t[7]) && IsName(TrimStart(t[7..]))
    then Some(TrimStart(t[7..])) else None
  }

  function StripCr(s: string): string {
    if s != "" && s[|s| - 1] == '\r' then s[..|s| - 1] else s
  }

  /** A line break may be one character or two; what follows the last one is a line as it stands. */
  function StripAll(parts: seq<string>): (r: seq<string>)
    ensures |r| == |parts|
    ensures forall k :: 0 <= k < |r| ==> r[k] == if k == |r| - 1 then parts[k] else StripCr(parts[k])
    decreases |parts|
  {
    if |parts| <= 1 then parts else [StripCr(parts[0])] + StripAll(parts[1..])
  }

  function Lines(text: string): seq<string> { StripAll(Split(text, '\n')) }

  // ----- Expansion -----

  function Cycle(name: string): string { "<!-- @import:cycle " + name + " -->" }
  function TooDeep(name: string): string { "<!-- @import:depth-exceeded " + name + " -->" }
  function Missing(name: string): string { "<!-- @import:missing " + name + " -->" }

  function Depth(depth: int): nat { if depth > 0 then depth else 0 }

  /** The text of a name that can be imported. */
  function Fragment(lookup: Lookup, name: string): Option<string> {
    if lookup(name) == Some("") then None else lookup(name)
  }

  function ExpandLine(line: string, lookup: Lookup, depth: int, stack: set<string>): string
    decreases Depth(depth), 0, 0
  {
    match ImportName(line)
    case None => line
    case Some(name) =>
      if name in stack then Cycle(name)
      else if depth <= 0 then TooDeep(name)
      else
        match Fragment(lookup, name)
        case None => Missing(name)
        case Some(text) => Expanded(text, lookup, depth - 1, stack + {name})
  }

  function ExpandLines(lines: seq<string>, lookup: Lookup, depth: int, stack: set<string>): (r: seq<string>)
    ensures |r| == |lines|
    ensures forall k :: 0 <= k < |r| ==> r[k] == ExpandLine(lines[k], lookup, depth, stack)
    decreases Depth(depth), 1, |lines|
  {
    if lines == [] then []
    else [ExpandLine(lines[0], lookup, depth, stack)] + ExpandLines(lines[1..], lookup, depth, stack)
  }

  function Expanded(text: string, lookup: Lookup, depth: int, stack: set<string>): string
    decreases Depth(depth), 2, 0
  {
    Join(ExpandLines(Lines(text), lookup, depth, stack), "\n")
  }

  /** The line loop of `expand`. */
  method Expand(text: string, lookup: Lookup, depthRemaining: int, stack: set<string>) returns (r: string)
    ensures r == Expanded(text, lookup, depthRemaining, stack)
    decreases Depth(depthRemaining)
  {
    hide ImportName, Split, Lines, Expanded, ExpandLines;
    var lines := Lines(text);
    var out: seq<string> := [];
    var k := 0;
    while k < |lines|
      invariant 0 <= k <= |lines| && |out| == k
      invariant forall j :: 0 <= j < k ==> out[j] == ExpandLine(lines[j], lookup, depthRemaining, stack)
    {
      var line := lines[k];
      k := k + 1;
      var match_ := ImportName(line);
      if match_.None? {
        out := out + [line];
        continue;
      }
      var name := match_.value;
      if name in stack {
        out := out + [Cycle(name)];
        continue;
      }
      if depthRemaining <= 0 {
        out := out + [TooDeep(name)];
        continue;
      }
      var fragment := lookup(name);
      if fragment.None? || |fragment.value| == 0 {
        out := out + [Missing(name)];
        continue;
      }
      var expanded := Expand(fragment.value, lookup, depthRemaining - 1, stack + {name});
      out := out + [expanded];
    }
    assert out == ExpandLines(lines, lookup, depthRemaining, stack);
    ExpandedIs(text, lookup, depthRemaining, stack);
    r := Join(out, "\n");
  }

  lemma ExpandedIs(text: string, lookup: Lookup, depth: int, stack: set<string>)
    ensures Expanded(text, lookup, depth, stack) == Join(ExpandLines(Lines(text), lookup, depth, stack), "\n")
  {
  }

  method ExpandFragments(text: string, lookup: Lookup, maxDepth: int) returns (r: string)
    ensures r == Expanded(text, lookup, maxDepth, {})
  {
    r := Expand(text, lookup, maxDepth, {});
  }

  // ----- No import line is left -----

  ghost predicate NoImports(text: string) {
    forall line :: line in Split(text, '\n') ==> ImportName(line).None?
  }

  lemma {:induction false} SplitAppend(a: string, c: char, b: string)
    ensures Split(a + [c] + b, c) == Split(a, c) + Split(b, c)
    decreases |a|
  {
    hide Split;
    var s := a + [c] + b;
    if a == "" {
      assert s[0] == c && s[1..] == b;
      SplitFirst(s, c);
      SplitNothing(a, c);
    } else {
      SplitAppend(a[1..], c, b);
      SplitFirst(a, c);
      SplitFirst(s, c);
      assert s[1..] == a[1..] + [c] + b;
      var rest, more := Split(a[1..], c), Split(b, c);
      assert (rest + more)[0] == rest[0] && (rest + more)[1..] == rest[1..] + more;
    }
  }

  lemma SplitFirst(s: string, c: char)
    requires s != ""
    ensures var rest := Split(s[1..], c);
            Split(s, c) == if s[0] == c then [""] + rest else [[s[0]] + rest[0]] + rest[1..]
  {
  }

  lemma {:induction false} JoinNoImports(parts: seq<string>)
    requires |parts| >= 1
    requires forall k :: 0 <= k < |parts| ==> NoImports(parts[k])
    ensures NoImports(Join(parts, "\n"))
    decreases |parts|
  {
    hide Split, ImportName;
    if |parts| > 1 {
      JoinNoImports(parts[1..]);
      SplitAppend(parts[0], '\n', Join(parts[1..], "\n"));
    }
  }

  lemma MarkerIsNoImport(marker: string)
    requires |marker| > 7 && marker[0] == '<' && marker[|marker| - 1] == '>' && '\n' !in marker
    ensures NoImports(marker)
  {
    hide IsName;
    SplitNothing(marker, '\n');
    TrimNothing(marker);
    assert marker[..7] != "@import";
  }

  lemma MarkersAreNoImports(name: string)
    requires IsName(name)
    ensures NoImports(Cycle(name)) && NoImports(TooDeep(name)) && NoImports(Missing(name))
  {
    hide NoImports;
    MarkerIsNoImport(Cycle(name));
    MarkerIsNoImport(TooDeep(name));
    MarkerIsNoImport(Missing(name));
  }

  lemma {:induction false} NothingLeftToImport(text: string, lookup: Lookup, depth: int, stack: set<string>)
    ensures NoImports(Expanded(text, lookup, depth, stack))
    decreases Depth(depth)
  {
    hide ImportName, Split, NoImports, Cycle, TooDeep, Missing;
    var lines := Lines(text);
    forall k | 0 <= k < |lines| ensures NoImports(ExpandLine(lines[k], lookup, depth, stack)) {
      var name := ImportName(lines[k]);
      if name.None? {
        LineIsNoImport(text, k);
      } else {
        MarkersAreNoImports(name.value);
        if name.value !in stack && depth > 0 && Fragment(lookup, name.value).Some? {
          NothingLeftToImport(Fragment(lookup, name.value).value, lookup, depth - 1, stack + {name.value});
        }
      }
    }
    JoinNoImports(ExpandLines(lines, lookup, depth, stack));
  }

  lemma LineIsNoImport(text: string, k: nat)
    requires k < |Lines(text)| && ImportName(Lines(text)[k]).None?
    ensures NoImports(Lines(text)[k])
  {
    hide ImportName, Split;
    var line := Lines(text)[k];
    assert '\n' !in line;
    SplitNothing(line, '\n');
  }

  lemma CrIsSpace()
    ensures IsSpace('\r')
  {
  }

  lemma {:induction false} TrimStartCr(s: string)
    ensures TrimStart(s + "\r") == if TrimStart(s) == "" then "" else TrimStart(s) + "\r"
    decreases |s|
  {
    hide IsSpace;
    CrIsSpace();
    if s == "" {
      assert s + "\r" == "\r" && "\r"[1..] == "";
    } else if IsSpace(s[0]) {
      var t := s + "\r";
      assert t[0] == s[0] && t[1..] == s[1..] + "\r";
      TrimStartCr(s[1..]);
      assert TrimStart(t) == TrimStart(t[1..]);
    } else {
      var t := s + "\r";
      assert t[0] == s[0] && TrimStart(t) == t;
    }
  }

  lemma TrimCr(s: string)
    ensures Trim(s + "\r") == Trim(s)
  {
    hide IsSpace;
    CrIsSpace();
    TrimStartCr(s);
    var t := TrimStart(s);
    assert t != "" ==> (t + "\r")[..|t|] == t;
  }

  /** A carriage return at the end of a line is white space, so it does not matter. */
  lemma CrDoesNotMatter(line: string)
    ensures ImportName(StripCr(line)) == ImportName(line)
  {
    hide Trim;
    if line != "" && line[|line| - 1] == '\r' {
      assert line == StripCr(line) + "\r";
      TrimCr(StripCr(line));
    }
  }

  /** The expansion has no import line in it, however its lines are broken. */
  lemma OutputHasNoImports(text: string, lookup: Lookup, maxDepth: int)
    ensures forall k :: 0 <= k < |Lines(Expanded(text, lookup, maxDepth, {}))| ==>
              ImportName(Lines(Expanded(text, lookup, maxDepth, {}))[k]).None?
  {
    hide Split, ImportName, Expanded;
    NothingLeftToImport(text, lookup, maxDepth, {});
    var out := Expanded(text, lookup, maxDepth, {});
    var parts := Split(out, '\n');
    forall k | 0 <= k < |parts| ensures ImportName(Lines(out)[k]).None? {
      assert parts[k] in parts;
      CrDoesNotMatter(parts[k]);
    }
  }

  // ----- Which lines import, and what -----

  predicate Blank(s: string) {
    forall i :: 0 <= i < |s| ==> IsSpace(s[i])
  }

  /** The line is the word, some white space and the name, with nothing but white space around. */
  ghost predicate IsImportOf(line: string, name: string) {
    && name != "" && (forall i :: 0 <= i < |name| ==> IsWordChar(name[i]))
    && exists a, b, c :: Blank(a) && Blank(b) && b != "" && Blank(c) && line == a + ("@import" + b + name) + c
  }

  predicate IsWordChar(c: char) {
    '0' <= c <= '9' || 'A' <= c <= 'Z' || 'a' <= c <= 'z' || c in {'-', '/', '_'}
  }

  lemma {:induction false} TrimStartIs(a: string, s: string)
    requires Blank(a) && (s != "" ==> !IsSpace(s[0]))
    ensures TrimStart(a + s) == s
    decreases |a|
  {
    hide IsSpace;
    if a != "" {
      assert (a + s)[1..] == a[1..] + s;
      TrimStartIs(a[1..], s);
    } else {
      assert a + s == s;
    }
  }

  lemma {:induction false} TrimEndIs(s: string, c: string)
    requires Blank(c) && (s != "" ==> !IsSpace(s[|s| - 1]))
    ensures TrimEnd(s + c) == s
    decreases |c|
  {
    hide IsSpace;
    if c != "" {
      assert (s + c)[..|s + c| - 1] == s + c[..|c| - 1];
      TrimEndIs(s, c[..|c| - 1]);
    } else {
      assert s + c == s;
    }
  }

  lemma TrimStartTakes(s: string) returns (a: string)
    ensures Blank(a) && s == a + TrimStart(s)
  {
    hide IsSpace, TrimStart;
    TrimStartStops(s);
    a := s[..|s| - |TrimStart(s)|];
  }

  lemma TrimEndTakes(s: string) returns (c: string)
    ensures Blank(c) && s == TrimEnd(s) + c
  {
    hide IsSpace, TrimEnd;
    TrimEndStops(s);
    c := s[|TrimEnd(s)|..];
  }

  /** An import line is recognised, and names what it names; nothing else is. */
  lemma ImportLines(line: string, name: string)
    ensures ImportName(line) == Some(name) <==> IsImportOf(line, name)
  {
    hide ImportName, IsImportOf;
    if ImportName(line) == Some(name) {
      ImportIsLine(line, name);
    }
    if IsImportOf(line, name) {
      LineIsImport(line, name);
    }
  }

  lemma ImportIsLine(line: string, name: string)
    requires ImportName(line) == Some(name)
    ensures IsImportOf(line, name)
  {
    hide IsSpace, TrimStart, TrimEnd, Blank;
    var a := TrimStartTakes(line);
    var c := TrimEndTakes(TrimStart(line));
    var b := ImportedName(Trim(line), name);
    NameStarts(name);
    assert line == a + ("@import" + b + name) + c;
  }

  lemma ImportedName(t: string, name: string) returns (b: string)
    requires |t| > 7 && t[..7] == "@import" && IsSpace(t[7]) && IsName(name) && TrimStart(t[7..]) == name
    ensures Blank(b) && b != "" && t == "@import" + b + name
  {
    hide IsSpace, TrimStart, Blank;
    b := TrimStartTakes(t[7..]);
    NameStarts(name);
    FirstOf(b, name, t[7..]);
    assert t == t[..7] + t[7..];
  }

  lemma FirstOf(b: string, name: string, rest: string)
    requires rest == b + name && rest != "" && name != "" && rest[0] != name[0]
    ensures b != ""
  {
  }

  lemma NameStarts(name: string)
    requires IsName(name)
    ensures !IsSpace(name[0]) && !IsSpace(name[|name| - 1])
    ensures forall i :: 0 <= i < |name| ==> IsWordChar(name[i])
  {
  }

  lemma LineIsImport(line: string, name: string)
    requires IsImportOf(line, name)
    ensures ImportName(line) == Some(name)
  {
    hide IsSpace, TrimStart, TrimEnd;
    var a, b, c :| Blank(a) && Blank(b) && b != "" && Blank(c) && line == a + ("@import" + b + name) + c;
    assert IsName(name);
    ImportTrims(a, b, c, name);
    ImportParts(b, name);
  }

  lemma ImportTrims(a: string, b: string, c: string, name: string)
    requires Blank(a) && Blank(c) && IsName(name)
    ensures Trim(a + ("@import" + b + name) + c) == "@import" + b + name
  {
    hide IsSpace, TrimStart, TrimEnd;
    var t := "@import" + b + name;
    NameStarts(name);
    WordStarts();
    assert a + t + c == a + (t + c) && (t + c)[0] == '@';
    assert t[|t| - 1] == name[|name| - 1];
    TrimStartIs(a, t + c);
    TrimEndIs(t, c);
  }

  lemma ImportParts(b: string, name: string)
    requires Blank(b) && b != "" && IsName(name)
    ensures var t := "@import" + b + name;
            |t| > 7 && t[..7] == "@import" && IsSpace(t[7]) && TrimStart(t[7..]) == name
  {
    hide IsSpace, TrimStart;
    var t := "@import" + b + name;
    assert t == "@import" + (b + name);
    assert t[7..] == b + name && t[7] == b[0];
    NameStarts(name);
    TrimStartIs(b, name);
  }

  lemma WordStarts()
    ensures !IsSpace('@')
  {
  }

  /**
   * What becomes of a text that is one import: the name's text, or a marker that says why not, when
   * the name is unknown or empty, when no depth is left, or when the text imports itself.
   */
  lemma OneImport(text: string, name: string, lookup: Lookup, depth: int)
    requires IsImportOf(text, name) && '\n' !in text
    ensures depth <= 0 ==> Expanded(text, lookup, depth, {}) == "<!-- @import:depth-exceeded " + name + " -->"
    ensures depth > 0 && (lookup(name) == None || lookup(name) == Some("")) ==>
              Expanded(text, lookup, depth, {}) == "<!-- @import:missing " + name + " -->"
    ensures depth > 0 && lookup(name) == Some(text) ==>
              Expanded(text, lookup, depth, {}) == "<!-- @import:cycle " + name + " -->"
    ensures depth > 0 && lookup(name).Some? && lookup(name).value != "" ==>
              Expanded(text, lookup, depth, {}) == Expanded(lookup(name).value, lookup, depth - 1, {name})
  {
    hide ImportName, Split, Expanded, IsImportOf;
    ImportLines(text, name);
    OneLine(text, lookup, depth, {});
    assert {} + {name} == {name};
    if depth > 0 && lookup(name) == Some(text) {
      OneLine(text, lookup, depth - 1, {name});
      ImportIsSomething(text, name);
    }
  }

  lemma ImportIsSomething(text: string, name: string)
    requires IsImportOf(text, name)
    ensures text != ""
  {
  }

  lemma OneLine(text: string, lookup: Lookup, depth: int, stack: set<string>)
    requires '\n' !in text
    ensures Expanded(text, lookup, depth, stack) == ExpandLine(text, lookup, depth, stack)
  {
    hide ExpandLine;
    SplitNothing(text, '\n');
    assert Lines(text) == [text];
    assert ExpandLines([text], lookup, depth, stack) == [ExpandLine(text, lookup, depth, stack)];
  }

  // ----- The full unfolding -----

  /** A line as it reads: plain text, or the name it imports. */
  datatype Item = Plain(text: string) | Import(name: string)

  function ItemOf(line: string): Item {
    match ImportName(line)
    case None => Plain(line)
    case Some(name) => Import(name)
  }

  function Items(lines: seq<string>): (r: seq<Item>)
    ensures |r| == |lines|
    ensures forall k :: 0 <= k < |r| ==> r[k] == ItemOf(lines[k])
  {
    if lines == [] then [] else [ItemOf(lines[0])] + Items(lines[1..])
  }

  function Read(text: string): seq<Item> { Items(Lines(text)) }

  /** Every import is there, and so is every import in it, and so on, ending within `depth` steps. */
  ghost predicate Closed(text: string, lookup: Lookup, depth: nat)
    decreases depth, 2
  {
    AllClosed(Read(text), lookup, depth)
  }

  ghost predicate AllClosed(items: seq<Item>, lookup: Lookup, depth: nat)
    decreases depth, 1
  {
    forall item :: item in items ==> ItemClosed(item, lookup, depth)
  }

  ghost predicate ItemClosed(item: Item, lookup: Lookup, depth: nat)
    decreases depth, 0
  {
    item.Import? ==>
      depth > 0 && Fragment(lookup, item.name).Some? && Closed(Fragment(lookup, item.name).value, lookup, depth - 1)
  }

  /** An import replaced by the unfolding of its text; nothing is marked and no depth is looked at. */
  ghost function UnfoldItem(item: Item, lookup: Lookup, depth: nat): string
    requires ItemClosed(item, lookup, depth)
    decreases depth, 0, 0
  {
    hide Read;
    match item
    case Plain(line) => line
    case Import(name) => Unfold(Fragment(lookup, name).value, lookup, depth - 1)
  }

  ghost function UnfoldItems(items: seq<Item>, lookup: Lookup, depth: nat): (r: seq<string>)
    requires AllClosed(items, lookup, depth)
    ensures |r| == |items|
    ensures forall k :: 0 <= k < |r| ==>
              ItemClosed(items[k], lookup, depth) && r[k] == UnfoldItem(items[k], lookup, depth)
    decreases depth, 1, |items|
  {
    hide Read, ItemClosed, UnfoldItem;
    if items == [] then [] else [UnfoldItem(items[0], lookup, depth)] + UnfoldItems(items[1..], lookup, depth)
  }

  ghost function Unfold(text: string, lookup: Lookup, depth: nat): string
    requires Closed(text, lookup, depth)
    decreases depth, 2, 0
  {
    hide Read, AllClosed;
    Join(UnfoldItems(Read(text), lookup, depth), "\n")
  }

  /** How deep the imports go. */
  ghost function HeightAt(item: Item, lookup: Lookup, depth: nat): nat
    requires ItemClosed(item, lookup, depth)
    decreases depth, 0, 0
  {
    hide Read;
    match item
    case Plain(_) => 0
    case Import(name) => 1 + Height(Fragment(lookup, name).value, lookup, depth - 1)
  }

  ghost function HeightOf(items: seq<Item>, lookup: Lookup, depth: nat): nat
    requires AllClosed(items, lookup, depth)
    decreases depth, 1, |items|
  {
    hide Read, ItemClosed, HeightAt;
    if items == [] then 0
    else
      var here, rest := HeightAt(items[0], lookup, depth), HeightOf(items[1..], lookup, depth);
      if here > rest then here else rest
  }

  ghost function Height(text: string, lookup: Lookup, depth: nat): nat
    requires Closed(text, lookup, depth)
    decreases depth, 2, 0
  {
    hide Read, AllClosed;
    HeightOf(Read(text), lookup, depth)
  }

  /** A text that ends within some depth is the same, and as high, at every depth it ends within. */
  lemma {:induction false} DepthDoesNotMatter(text: string, lookup: Lookup, d: nat, e: nat)
    requires Closed(text, lookup, d) && d <= e
    ensures Closed(text, lookup, e)
    ensures Unfold(text, lookup, d) == Unfold(text, lookup, e) && Height(text, lookup, d) == Height(text, lookup, e)
    decreases d, 2, 0
  {
    hide Read, AllClosed, UnfoldItems, HeightOf;
    ItemsDoNotMatter(Read(text), lookup, d, e);
  }

  lemma {:induction false} ItemsDoNotMatter(items: seq<Item>, lookup: Lookup, d: nat, e: nat)
    requires AllClosed(items, lookup, d) && d <= e
    ensures AllClosed(items, lookup, e)
    ensures UnfoldItems(items, lookup, d) == UnfoldItems(items, lookup, e)
    ensures HeightOf(items, lookup, d) == HeightOf(items, lookup, e)
    decreases d, 1, |items|
  {
    hide Read, Fragment, ItemClosed, UnfoldItem, HeightAt;
    if items != [] {
      assert items[0] in items;
      ItemsDoNotMatter(items[1..], lookup, d, e);
      ItemDoesNotMatter(items[0], lookup, d, e);
      assert items == [items[0]] + items[1..];
    }
  }

  lemma {:induction false} ItemDoesNotMatter(item: Item, lookup: Lookup, d: nat, e: nat)
    requires ItemClosed(item, lookup, d) && d <= e
    ensures ItemClosed(item, lookup, e)
    ensures UnfoldItem(item, lookup, d) == UnfoldItem(item, lookup, e)
    ensures HeightAt(item, lookup, d) == HeightAt(item, lookup, e)
    decreases d, 0, 0
  {
    hide Fragment, Closed, Unfold, Height;
    if item.Import? {
      DepthDoesNotMatter(Fragment(lookup, item.name).value, lookup, d - 1, e - 1);
    }
  }

  /** A text is as high as any of its lines. */
  lemma {:induction false} HeightIsMax(items: seq<Item>, item: Item, lookup: Lookup, depth: nat)
    requires AllClosed(items, lookup, depth) && item in items
    ensures ItemClosed(item, lookup, depth) && HeightOf(items, lookup, depth) >= HeightAt(item, lookup, depth)
    decreases |items|
  {
    hide Read, ItemClosed, HeightAt;
    if items[0] != item {
      assert item in items[1..];
      HeightIsMax(items[1..], item, lookup, depth);
    }
  }

  /** Every name on the stack stands for a text at least so high. */
  ghost predicate StackAbove(stack: set<string>, lookup: Lookup, depth: nat, height: nat) {
    forall name :: name in stack ==>
      && Fragment(lookup, name).Some? && Closed(Fragment(lookup, name).value, lookup, depth)
      && Height(Fragment(lookup, name).value, lookup, depth) >= height
  }

  lemma {:induction false} ExpandIsUnfold(
    text: string, lookup: Lookup, d: nat, top: nat, depth: int, stack: set<string>)
    requires Closed(text, lookup, d) && d <= depth && d <= top
    requires Closed(text, lookup, top) && StackAbove(stack, lookup, top, Height(text, lookup, top))
    ensures Expanded(text, lookup, depth, stack) == Unfold(text, lookup, d)
    decreases d, 1
  {
    hide ImportName, Lines, ItemClosed, StackAbove, HeightAt, UnfoldItem, ExpandLine;
    var lines := Lines(text);
    var items, parts := Read(text), ExpandLines(lines, lookup, depth, stack);
    forall k | 0 <= k < |lines| ensures parts[k] == UnfoldItems(items, lookup, d)[k] {
      assert items[k] in items;
      HeightIsMax(items, items[k], lookup, top);
      LineIsUnfold(lines[k], lookup, d, top, depth, stack, Height(text, lookup, top));
    }
    assert parts == UnfoldItems(items, lookup, d);
  }

  lemma {:induction false} LineIsUnfold(
    line: string, lookup: Lookup, d: nat, top: nat, depth: int, stack: set<string>, height: nat)
    requires ItemClosed(ItemOf(line), lookup, d) && d <= depth && d <= top
    requires ItemClosed(ItemOf(line), lookup, top) && height >= HeightAt(ItemOf(line), lookup, top)
    requires StackAbove(stack, lookup, top, height)
    ensures ExpandLine(line, lookup, depth, stack) == UnfoldItem(ItemOf(line), lookup, d)
    decreases d, 0
  {
    hide ImportName, Fragment, Closed, Height, Unfold, Expanded;
    var item := ItemOf(line);
    if item.Import? {
      var text := Fragment(lookup, item.name).value;
      DepthDoesNotMatter(text, lookup, d - 1, top);
      DepthDoesNotMatter(text, lookup, d - 1, top - 1);
      assert item.name !in stack;
      assert StackAbove(stack + {item.name}, lookup, top, Height(text, lookup, top));
      ExpandIsUnfold(text, lookup, d - 1, top, depth - 1, stack + {item.name});
    }
  }

  /**
   * When every import below a text is there and they end within `d` steps (so none is in itself),
   * every depth limit from `d` on gives the full unfolding.
   */
  lemma FullUnfolding(text: string, lookup: Lookup, d: nat, maxDepth: int)
    requires Closed(text, lookup, d) && d <= maxDepth
    ensures Expanded(text, lookup, maxDepth, {}) == Unfold(text, lookup, d)
  {
    hide Closed, Height, Unfold, Expanded;
    ExpandIsUnfold(text, lookup, d, d, maxDepth, {});
  }

  // ----- Otherwise the result says so -----

  predicate IsMarker(line: string, name: string) {
    line == Cycle(name) || line == TooDeep(name) || line == Missing(name)
  }

  ghost predicate HasMarker(text: string) {
    exists line, name :: line in Split(text, '\n') && IsMarker(line, name)
  }

  lemma {:induction false} JoinHasMarker(parts: seq<string>, k: nat)
    requires k < |parts| && HasMarker(parts[k])
    ensures HasMarker(Join(parts, "\n"))
    decreases |parts|
  {
    hide Split, IsMarker;
    if |parts| > 1 {
      SplitAppend(parts[0], '\n', Join(parts[1..], "\n"));
      if k > 0 {
        JoinHasMarker(parts[1..], k - 1);
      }
      var line, name :| line in Split(parts[k], '\n') && IsMarker(line, name);
      if k > 0 {
        var line', name' :| line' in Split(Join(parts[1..], "\n"), '\n') && IsMarker(line', name');
        assert line' in Split(Join(parts, "\n"), '\n');
      } else {
        assert line in Split(Join(parts, "\n"), '\n');
      }
    }
  }

  lemma MarkerStands(marker: string, name: string)
    requires IsMarker(marker, name) && IsName(name)
    ensures HasMarker(marker)
  {
    assert '\n' !in marker;
    SplitNothing(marker, '\n');
    assert marker in Split(marker, '\n');
  }

  /** A text that does not end within the depth limit leaves a marker line in its expansion. */
  lemma {:induction false} CutIsMarked(text: string, lookup: Lookup, depth: int, stack: set<string>)
    requires !Closed(text, lookup, Depth(depth))
    ensures HasMarker(Expanded(text, lookup, depth, stack))
    decreases Depth(depth)
  {
    hide ImportName, Lines, Fragment, HasMarker, Cycle, TooDeep, Missing;
    var lines := Lines(text);
    var item :| item in Read(text) && !ItemClosed(item, lookup, Depth(depth));
    var k :| 0 <= k < |lines| && Read(text)[k] == item;
    var name := item.name;
    assert ImportName(lines[k]) == Some(name);
    if name in stack {
      MarkerStands(Cycle(name), name);
    } else if depth <= 0 {
      MarkerStands(TooDeep(name), name);
    } else if Fragment(lookup, name).None? {
      MarkerStands(Missing(name), name);
    } else {
      CutIsMarked(Fragment(lookup, name).value, lookup, depth - 1, stack + {name});
    }
    JoinHasMarker(ExpandLines(lines, lookup, depth, stack), k);
  }
}
