/** The paths of a bundle archive: internal/agent/bundle.go, on Unix and without following symbolic links. */
module Bundle {
  import opened Text

  // An absolute clean path, as its components.
  type Path = seq<string>

  // ---- path/filepath --------------------------------------------------------------------------

  /** strings.Split(s, "/"). */
  function Split(s: string): (parts: seq<string>)
    ensures |parts| >= 1
    ensures forall i :: 0 <= i < |parts| ==> '/' !in parts[i]
  {
    if s == [] then [""]
    else
      var rest := Split(s[1..]);
      if s[0] == '/' then [""] + rest else [[s[0]] + rest[0]] + rest[1..]
  }

  /** strings.Join(parts, "/"). */
  function JoinParts(parts: seq<string>): string {
    if parts == [] then ""
    else if |parts| == 1 then parts[0]
    else parts[0] + "/" + JoinParts(parts[1..])
  }

  lemma {:induction false} JoinSplit(s: string)
    ensures JoinParts(Split(s)) == s
  {
    if s != [] {
      var rest := Split(s[1..]);
      JoinSplit(s[1..]);
      assert Split(s)[1..] == if s[0] == '/' then rest else rest[1..];
    }
  }

  /** A component that names something. */
  predicate Plain(part: string) {
    part != "" && part != "." && part != ".."
  }

  predicate AllPlain(parts: seq<string>) {
    forall i :: 0 <= i < |parts| ==> Plain(parts[i])
  }

  predicate Clean(path: Path) {
    AllPlain(path) && forall i :: 0 <= i < |path| ==> '/' !in path[i]
  }

  /** filepath.Join of an absolute path and a relative one with these parts; the parent of the top is the top. */
  function Resolve(path: Path, parts: seq<string>): Path
    decreases |parts|
  {
    if parts == [] then path
    else if parts[0] == "" || parts[0] == "." then Resolve(path, parts[1..])
    else if parts[0] == ".." then Resolve(Dir(path), parts[1..])
    else Resolve(path + [parts[0]], parts[1..])
  }

  function Dir(path: Path): Path {
    if path == [] then [] else path[..|path| - 1]
  }

  lemma {:induction false} ResolveIsClean(path: Path, parts: seq<string>)
    requires Clean(path) && forall i :: 0 <= i < |parts| ==> '/' !in parts[i]
    ensures Clean(Resolve(path, parts))
    decreases |parts|
  {
    if parts != [] {
      ResolveIsClean(if !Plain(parts[0]) then (if parts[0] == ".." then Dir(path) else path) else path + [parts[0]], parts[1..]);
    }
  }

  /** A path is resolved part by part. */
  lemma {:induction false} ResolveAppend(path: Path, first: seq<string>, second: seq<string>)
    ensures Resolve(path, first + second) == Resolve(Resolve(path, first), second)
    decreases |first|
  {
    if first == [] {
      assert first + second == second;
    } else {
      assert (first + second)[1..] == first[1..] + second;
      ResolveAppend(if !Plain(first[0]) then (if first[0] == ".." then Dir(path) else path) else path + [first[0]], first[1..], second);
    }
  }

  /** An upward part undoes the last component, the top's parent is the top, and the other special parts do nothing. */
  lemma {:induction false} ResolveSpecial(path: Path, name: string)
    ensures Resolve(path + [name], [".."]) == path && Resolve([], [".."]) == []
    ensures Resolve(path, [""]) == path && Resolve(path, ["."]) == path
    ensures Plain(name) ==> Resolve(path, [name]) == path + [name]
  {
    assert [".."][1..] == [] && [""][1..] == [] && ["."][1..] == [] && [name][1..] == [];
    assert Dir(path + [name]) == path;
  }

  /** Plain components are only appended. */
  lemma {:induction false} ResolvePlain(path: Path, parts: seq<string>)
    requires AllPlain(parts)
    ensures Resolve(path, parts) == path + parts
    decreases |parts|
  {
    if parts != [] {
      ResolvePlain(path + [parts[0]], parts[1..]);
      assert path + [parts[0]] + parts[1..] == path + parts;
    }
  }

  function Common(a: Path, b: Path): (k: nat)
    ensures k <= |a| && k <= |b|
    ensures a[..k] == b[..k]
    ensures k < |a| && k < |b| ==> a[k] != b[k]
    decreases |a|
  {
    if a == [] || b == [] || a[0] != b[0] then 0 else 1 + Common(a[1..], b[1..])
  }

  function Ups(n: nat): (parts: seq<string>)
    ensures |parts| == n && forall i :: 0 <= i < n ==> parts[i] == ".."
  {
    seq(n, _ => "..")
  }

  /** filepath.Rel for two absolute clean paths. */
  function Rel(base: Path, target: Path): string {
    var k := Common(base, target);
    var parts := Ups(|base| - k) + target[k..];
    if parts == [] then "." else JoinParts(parts)
  }

  predicate Within(path: Path, root: Path) {
    |path| >= |root| && path[..|root|] == root
  }

  predicate Climbs(relative: string) {
    relative == ".." || HasPrefix(relative, "../")
  }

  lemma {:induction false} JoinClimbs(parts: seq<string>)
    requires parts != [] && parts[0] != "" && '/' !in parts[0]
    ensures Climbs(JoinParts(parts)) <==> parts[0] == ".."
  {
    var s, first := JoinParts(parts), parts[0];
    if |parts| > 1 {
      assert s[..|first|] == first && s[|first|] == '/';
    }
    if HasPrefix(s, "../") {
      assert s[..3][0] == '.' && s[..3][1] == '.' && s[..3][2] == '/';
      assert s[0] == '.' && s[1] == '.' && s[2] == '/';
    }
    if first == ".." && |parts| > 1 {
      assert s[..3] == "../";
    }
  }

  /** A relative path climbs exactly when its target is not within its base. */
  lemma RelClimbs(base: Path, target: Path)
    requires Clean(base) && Clean(target)
    ensures Climbs(Rel(base, target)) <==> !Within(target, base)
  {
    var k := Common(base, target);
    var parts := Ups(|base| - k) + target[k..];
    if k < |base| {
      assert parts[0] == "..";
      JoinClimbs(parts);
    } else if parts != [] {
      assert parts[0] == target[k];
      JoinClimbs(parts);
    }
  }

  // ---- archive names --------------------------------------------------------------------------

  datatype Name = Accepted(name: string, first: string) | Unsafe

  function TrimSlash(name: string): string {
    if name != "" && name[|name| - 1] == '/' then name[..|name| - 1] else name
  }

  /** A directory's name may end in one slash, which is no part of it. */
  lemma TrimSlashIs(stem: string)
    ensures TrimSlash(stem + "/") == stem
    ensures !HasSuffix(stem, "/") ==> TrimSlash(stem) == stem
  {}

  predicate RelativeArchivePath(path: string) {
    path != "" && !HasPrefix(path, "/") && AllPlain(Split(path))
  }

  function ArchivePath(name: string, isDirectory: bool): Name {
    var name := if isDirectory then TrimSlash(name) else name;
    if HasPrefix(name, "/") || !RelativeArchivePath(name) then Unsafe
    else
      var parts := Split(name);
      if |parts| == 1 && isDirectory then Accepted(name, parts[0])
      else if |parts| < 2 then Unsafe
      else Accepted(name, parts[0])
  }

  /** The parts of a name whose entry may be created. */
  predicate Placeable(parts: seq<string>, isDirectory: bool) {
    AllPlain(parts) && |parts| >= if isDirectory then 1 else 2
  }

  /** A name is accepted exactly when its parts are placeable; its entry is then placed below the destination under just
      these parts, and a file's or link's parent is a strict descendant of the destination. */
  lemma {:induction false} ArchivePathPlaces(destination: Path, name: string, isDirectory: bool)
    ensures var parts := Split(if isDirectory then TrimSlash(name) else name);
            ArchivePath(name, isDirectory).Accepted? <==> Placeable(parts, isDirectory)
    ensures ArchivePath(name, isDirectory).Accepted? ==>
              var parts := Split(if isDirectory then TrimSlash(name) else name);
              var accepted := ArchivePath(name, isDirectory);
              && accepted.first == parts[0]
              && Resolve(destination, Split(accepted.name)) == destination + parts
              && Within(destination + parts, destination + [accepted.first])
              && (!isDirectory ==> Within(Dir(destination + parts), destination + [accepted.first]))
  {
    var trimmed := if isDirectory then TrimSlash(name) else name;
    var parts := Split(trimmed);
    if trimmed != "" && trimmed[0] == '/' {
      assert parts[0] == "";
    }
    if AllPlain(parts) {
      assert Plain(parts[0]);
      ResolvePlain(destination, parts);
      var path := destination + parts;
      assert path[..|destination| + 1] == destination + [parts[0]];
    }
  }

  predicate SymlinkStaysInRoot(path: Path, target: string, destination: Path, root: string) {
    var resolved := Resolve(Dir(path), Split(target));
    !Climbs(Rel(Resolve(destination, [root]), resolved))
  }

  /** A link is let through exactly when its lexical target lies in destination/root. */
  lemma {:induction false} StaysMeansWithin(path: Path, target: string, destination: Path, root: string)
    requires Clean(path) && Clean(destination) && Plain(root) && '/' !in root
    ensures SymlinkStaysInRoot(path, target, destination, root)
        <==> Within(Resolve(Dir(path), Split(target)), destination + [root])
  {
    ResolvePlain(destination, [root]);
    ResolveIsClean(Dir(path), Split(target));
    RelClimbs(destination + [root], Resolve(Dir(path), Split(target)));
  }

  // ---- the upward walk ------------------------------------------------------------------------

  // What the operating system answers while one entry is handled: whether its directories could be made, which paths
  // Lstat finds that are no symbolic links, and whether the entry itself could be written.
  datatype Answers = Answers(made: bool, solid: set<Path>, written: bool)

  /** The strict ancestors of path strictly below root. */
  ghost predicate SolidBetween(path: Path, root: Path, solid: set<Path>) {
    forall k :: |root| < k < |path| ==> path[..k] in solid
  }

  /** The walk up from the parent ends at root, and asks about exactly the strict ancestors below it. */
  method SafeParent(path: Path, root: Path, answers: Answers) returns (safe: bool)
    requires path != [] && Within(Dir(path), root)
    ensures safe <==> answers.made && SolidBetween(path, root, answers.solid)
  {
    var parent := Dir(path);
    if !answers.made {
      return false;
    }
    var current := parent;
    while current != root
      invariant |root| <= |current| < |path| && current == path[..|current|] && Within(current, root)
      invariant forall k :: |current| < k < |path| ==> path[..k] in answers.solid
      decreases |current|
    {
      if current !in answers.solid {
        return false;
      }
      assert Dir(current) == path[..|current| - 1];
      current := Dir(current);
    }
    return true;
  }

  // ---- the archive ----------------------------------------------------------------------------

  datatype Kind = Directory | Regular | Link(target: string) | Other

  datatype Header = Header(name: string, kind: Kind)

  datatype Extraction =
    | Extracted(root: string, entry: Path)
    | RefusedAt(index: nat)
    | Unreadable
    | BadEntrypoint
    | NotSealed

  function Parts(header: Header): seq<string> {
    Split(if header.kind.Directory? then TrimSlash(header.name) else header.name)
  }

  /** An entry that extraction under this root lets through. */
  ghost predicate Fits(header: Header, answers: Answers, destination: Path, root: string) {
    var path := destination + Parts(header);
    && Placeable(Parts(header), header.kind.Directory?)
    && Parts(header)[0] == root
    && answers.made
    && (header.kind.Regular? || header.kind.Link? ==> answers.written && SolidBetween(path, destination, answers.solid))
    && (header.kind.Link? ==>
          && !HasPrefix(header.kind.target, "/")
          && Within(Resolve(Dir(path), Split(header.kind.target)), destination + [root]))
    && !header.kind.Other?
  }

  /** filepath.Clean of a relative path, by its parts: only leading parts can be "..". */
  function CleanRelative(done: seq<string>, parts: seq<string>): seq<string>
    decreases |parts|
  {
    if parts == [] then done
    else if parts[0] == "" || parts[0] == "." then CleanRelative(done, parts[1..])
    else if parts[0] == ".." && done != [] && done[|done| - 1] != ".." then CleanRelative(done[..|done| - 1], parts[1..])
    else CleanRelative(done + [parts[0]], parts[1..])
  }

  /** Joined to the root, the entrypoint stays below the destination. */
  predicate EntrypointBelow(root: string, entrypoint: string) {
    var cleaned := CleanRelative([root], Split(entrypoint));
    cleaned != [] && AllPlain(cleaned)
  }

  // What the operating system answers about the whole archive: whether it could be read to its end, at which paths Stat
  // would find files, and whether the result could be made read-only.
  datatype Surroundings = Surroundings(intact: bool, files: set<Path>, sealed: bool)

  /** The names in the destination after these entries; extraction starts in an empty directory of its own. */
  function Children(headers: seq<Header>): set<string> {
    set h | h in headers :: Parts(h)[0]
  }

  /** Stat finds a file, below the destination only through one of the names in it. */
  predicate Finds(headers: seq<Header>, destination: Path, files: set<Path>, path: Path) {
    path in files && (Within(path, destination) && path != destination ==> path[|destination|] in Children(headers))
  }

  predicate HasEntrypoint(headers: seq<Header>, destination: Path, root: string, entrypoint: string, files: set<Path>) {
    EntrypointBelow(root, entrypoint) && Finds(headers, destination, files, Resolve(destination + [root], Split(entrypoint)))
  }

  /** The outcome of an extraction: every entry fits and the entrypoint is there, or the first misfit decides. */
  ghost predicate Decides(headers: seq<Header>, answers: seq<Answers>, destination: Path, entrypoint: string,
                          around: Surroundings, r: Extraction)
    requires |answers| == |headers|
  {
    match r
    case Extracted(root, entry) =>
      && headers != [] && AllFit(headers, answers, destination, root, |headers|)
      && around.intact && HasEntrypoint(headers, destination, root, entrypoint, around.files)
      && entry == Resolve(destination + [root], Split(entrypoint)) && around.sealed
    case RefusedAt(k) =>
      && k < |headers|
      && AllFit(headers, answers, destination, Parts(headers[0])[0], k)
      && !Fits(headers[k], answers[k], destination, Parts(headers[0])[0])
    case Unreadable =>
      && !around.intact && (headers != [] ==> AllFit(headers, answers, destination, Parts(headers[0])[0], |headers|))
    case BadEntrypoint =>
      && around.intact
      && (headers != [] ==>
            && AllFit(headers, answers, destination, Parts(headers[0])[0], |headers|)
            && !HasEntrypoint(headers, destination, Parts(headers[0])[0], entrypoint, around.files))
    case NotSealed =>
      && headers != [] && AllFit(headers, answers, destination, Parts(headers[0])[0], |headers|)
      && around.intact && HasEntrypoint(headers, destination, Parts(headers[0])[0], entrypoint, around.files)
      && !around.sealed
  }

  /** The first k entries fit. */
  ghost predicate AllFit(headers: seq<Header>, answers: seq<Answers>, destination: Path, root: string, k: nat)
    requires k <= |headers| == |answers|
  {
    forall i :: 0 <= i < k ==> Fits(headers[i], answers[i], destination, root)
  }

  method ExtractBundle(headers: seq<Header>, answers: seq<Answers>, destination: Path, entrypoint: string, around: Surroundings)
    returns (r: Extraction)
    requires |answers| == |headers| && Clean(destination)
    ensures Decides(headers, answers, destination, entrypoint, around, r)
  {
    hide Split, TrimSlash, SymlinkStaysInRoot, Resolve, ArchivePath, Plain, HasPrefix;
    var root := "";
    for index := 0 to |headers|
      invariant index == 0 <==> root == ""
      invariant index > 0 ==> root == Parts(headers[0])[0]
      invariant AllFit(headers, answers, destination, root, index)
    {
      var header := headers[index];
      var name := ArchivePath(header.name, header.kind.Directory?);
      ArchivePathPlaces(destination, header.name, header.kind.Directory?);
      if name.Unsafe? {
        return RefusedAt(index);
      }
      NamesSomething(Parts(header));
      if root == "" {
        root := name.first;
      }
      if name.first != root {
        return RefusedAt(index);
      }
      var path := Resolve(destination, Split(name.name));
      var allowed := Allowed(header, answers[index], path, destination, root);
      if !allowed {
        return RefusedAt(index);
      }
    }
    if !around.intact {
      return Unreadable;
    }
    if root == "" || !EntrypointBelow(root, entrypoint) {
      return BadEntrypoint;
    }
    ResolvePlain(destination, [root]);
    var entry := Resolve(Resolve(destination, [root]), Split(entrypoint));
    if !Finds(headers, destination, around.files, entry) {
      return BadEntrypoint;
    }
    if !around.sealed {
      return NotSealed;
    }
    return Extracted(root, entry);
  }

  lemma NamesSomething(parts: seq<string>)
    requires AllPlain(parts) && parts != []
    ensures parts[0] != ""
  {
    assert Plain(parts[0]);
  }

  /** What one entry does once its name is accepted. */
  method Allowed(header: Header, answers: Answers, path: Path, destination: Path, root: string) returns (allowed: bool)
    requires Clean(destination) && Placeable(Parts(header), header.kind.Directory?) && Parts(header)[0] == root
    requires path == destination + Parts(header)
    ensures allowed <==> Fits(header, answers, destination, root)
  {
    hide Split, TrimSlash, SymlinkStaysInRoot, Resolve;
    assert Plain(root);
    match header.kind
    case Directory =>
      return answers.made;
    case Regular =>
      var safe := SafeParent(path, destination, answers);
      return safe && answers.written;
    case Link(target) =>
      StaysMeansWithin(path, target, destination, root);
      if HasPrefix(target, "/") || !SymlinkStaysInRoot(path, target, destination, root) {
        return false;
      }
      var safe := SafeParent(path, destination, answers);
      return safe && answers.written;
    case Other =>
      return false;
  }

  /** An extracted bundle has one top-level directory, everything in it lies below that, and so does every link's
      lexical target. */
  lemma EverythingIsUnderRoot(headers: seq<Header>, answers: seq<Answers>, destination: Path, root: string, i: nat)
    requires |answers| == |headers| && i < |headers| && Clean(destination)
    requires AllFit(headers, answers, destination, root, |headers|)
    ensures var path := destination + Parts(headers[i]);
            && Within(path, destination + [root])
            && (headers[i].kind.Link? ==> Within(Resolve(Dir(path), Split(headers[i].kind.target)), destination + [root]))
            && (path == destination + [root] ==> headers[i].kind.Directory?)
  {
    var path := destination + Parts(headers[i]);
    assert path[..|destination| + 1] == destination + [Parts(headers[i])[0]];
  }

  /** No file or link is created below a path that is missing or a symbolic link, no link is absolute, and there is nothing
      but directories, files and links. */
  lemma EntriesAreSolid(headers: seq<Header>, answers: seq<Answers>, destination: Path, root: string, i: nat, above: Path)
    requires |answers| == |headers| && i < |headers| && AllFit(headers, answers, destination, root, |headers|)
    ensures headers[i].kind != Other && answers[i].made && (!headers[i].kind.Directory? ==> answers[i].written)
    ensures headers[i].kind.Link? ==> headers[i].kind.target == "" || headers[i].kind.target[0] != '/'
    ensures var path := destination + Parts(headers[i]);
            !headers[i].kind.Directory? && Within(path, above) && above != path && Within(above, destination) && above != destination ==>
              above in answers[i].solid
  {
    assert Fits(headers[i], answers[i], destination, root);
    hide Split, TrimSlash, Resolve;
    var path := destination + Parts(headers[i]);
    if Within(path, above) && above != path && Within(above, destination) && above != destination {
      assert path[..|above|] == above && path[..|path|] == path && above[..|above|] == above;
    }
  }

  lemma {:induction false} CleanPlain(done: seq<string>, parts: seq<string>)
    requires AllPlain(parts)
    ensures CleanRelative(done, parts) == done + parts
    decreases |parts|
  {
    if parts != [] {
      assert Plain(parts[0]);
      CleanPlain(done + [parts[0]], parts[1..]);
      assert done + [parts[0]] + parts[1..] == done + parts;
    }
  }

  /** An entrypoint that the installer accepts lies below the root, so extraction never refuses it for its path. */
  lemma {:induction false} CheckedEntrypointStays(destination: Path, root: string, entrypoint: string)
    requires RelativeArchivePath(entrypoint) && Plain(root)
    ensures EntrypointBelow(root, entrypoint)
    ensures Resolve(destination + [root], Split(entrypoint)) == destination + [root] + Split(entrypoint)
  {
    CleanPlain([root], Split(entrypoint));
    ResolvePlain(destination + [root], Split(entrypoint));
  }

  /** An entrypoint that passes the path test lies strictly below the destination, and under the archive's root exactly
      when the cleaned path still begins with it. */
  lemma {:induction false} EntrypointStaysBelow(destination: Path, root: string, entrypoint: string)
    requires EntrypointBelow(root, entrypoint) && Plain(root)
    ensures var entry := Resolve(destination + [root], Split(entrypoint));
            var cleaned := CleanRelative([root], Split(entrypoint));
            && Within(entry, destination) && entry != destination && entry[|destination|] == cleaned[0]
            && (Within(entry, destination + [root]) <==> cleaned[0] == root)
  {
    CleanBelow(destination, [root], Split(entrypoint));
    hide Resolve, CleanRelative, Split;
    FirstBelow(destination, CleanRelative([root], Split(entrypoint)), root);
  }

  lemma FirstBelow(destination: Path, parts: seq<string>, root: string)
    requires parts != []
    ensures var path := destination + parts;
            && Within(path, destination) && path != destination && path[|destination|] == parts[0]
            && (Within(path, destination + [root]) <==> parts[0] == root)
  {
    assert (destination + parts)[..|destination| + 1] == destination + [parts[0]];
    assert (destination + [root])[|destination|] == root;
    assert (destination + [parts[0]])[|destination|] == parts[0];
  }

  lemma {:induction false} SplitLetter(c: char, s: string, first: string, rest: seq<string>)
    requires c != '/' && Split(s) == [first] + rest
    ensures Split([c] + s) == [[c] + first] + rest
  {
    assert ([c] + s)[1..] == s;
    assert ([first] + rest)[1..] == rest;
  }

  lemma SplitClimb()
    ensures Split("../b") == ["..", "b"]
  {
    assert "b" == ['b'] + "" && "/b"[1..] == "b" && "./b" == ['.'] + "/b" && "../b" == ['.'] + "./b";
    assert ['.'] + "" == "." && ['.'] + "." == "..";
    assert Split("") == [""] + [];
    hide Split;
    SplitLetter('b', "", "", []);
    SplitSlash("b");
    SplitLetter('.', "/b", "", ["b"]);
    SplitLetter('.', "./b", ".", ["b"]);
  }

  lemma {:induction false} SplitSlash(s: string)
    ensures Split("/" + s) == [""] + Split(s)
  {
    assert ("/" + s)[1..] == s;
  }

  /** The path test alone lets an entrypoint climb out of the root: a file beside it passes. */
  lemma PathTestLetsClimb()
    ensures EntrypointBelow("a", "../b")
    ensures Resolve(["d", "a"], Split("../b")) == ["d", "b"] && !Within(["d", "b"], ["d", "a"])
  {
    SplitClimb();
    hide Split;
    assert ["..", "b"][1..] == ["b"] && ["b"][1..] == [];
    assert CleanRelative(["a"], ["..", "b"]) == CleanRelative([], ["b"]) == ["b"];
    assert Dir(["d", "a"]) == ["d"];
    assert ["d", "b"][..2][1] != ["d", "a"][1];
  }

  /** But nothing lies beside the root, so the entry of an extracted bundle is always under it. */
  lemma ExtractedEntryIsUnderRoot(headers: seq<Header>, answers: seq<Answers>, destination: Path, entrypoint: string,
                                  around: Surroundings, r: Extraction)
    requires |answers| == |headers| && Decides(headers, answers, destination, entrypoint, around, r) && r.Extracted?
    ensures Within(r.entry, destination + [r.root])
  {
    hide Split, Resolve, CleanRelative;
    assert Fits(headers[0], answers[0], destination, r.root);
    assert Plain(r.root);
    EntrypointStaysBelow(destination, r.root, entrypoint);
    assert r.entry[|destination|] in Children(headers);
    forall h | h in headers ensures Parts(h)[0] == r.root {
      var i :| 0 <= i < |headers| && headers[i] == h;
      assert Fits(headers[i], answers[i], destination, r.root);
    }
  }

  lemma {:induction false} CleanBelow(destination: Path, done: seq<string>, parts: seq<string>)
    requires AllPlain(done) && AllPlain(CleanRelative(done, parts))
    ensures Resolve(destination + done, parts) == destination + CleanRelative(done, parts)
    decreases |parts|
  {
    if parts != [] {
      if parts[0] == ".." && done == [] {
        UpFromNothing(parts);
      } else if parts[0] == ".." {
        assert Plain(done[|done| - 1]);
        assert Dir(destination + done) == destination + done[..|done| - 1];
        CleanBelow(destination, done[..|done| - 1], parts[1..]);
      } else if Plain(parts[0]) {
        assert destination + done + [parts[0]] == destination + (done + [parts[0]]);
        CleanBelow(destination, done + [parts[0]], parts[1..]);
      } else {
        CleanBelow(destination, done, parts[1..]);
      }
    }
  }

  lemma {:induction false} UpFromNothing(parts: seq<string>)
    requires parts != [] && parts[0] == ".."
    ensures !AllPlain(CleanRelative([], parts))
  {
    assert [] + [parts[0]] == [".."];
    LeadingUpStays([".."], parts[1..]);
    assert !Plain(CleanRelative([], parts)[0]);
  }

  lemma {:induction false} LeadingUpStays(done: seq<string>, parts: seq<string>)
    requires done != [] && done[0] == ".."
    ensures var cleaned := CleanRelative(done, parts);
            cleaned != [] && cleaned[0] == ".."
    decreases |parts|
  {
    if parts != [] {
      if parts[0] == "" || parts[0] == "." {
        LeadingUpStays(done, parts[1..]);
      } else if parts[0] == ".." && done[|done| - 1] != ".." {
        LeadingUpStays(done[..|done| - 1], parts[1..]);
      } else {
        LeadingUpStays(done + [parts[0]], parts[1..]);
      }
    }
  }
}
