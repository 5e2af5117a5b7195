/**
 * The Broken-File heuristic: a failure is blamed on the committer of the VCS change that
 * touched a file the failure text mentions, unless the evidence is ambiguous.
 *
 * File names follow a simple rule: the name is the segment after the last '/' or '\',
 * and the name without extension is the name cut at its last '.'.
 */
module BrokenFileHeuristic {
  import opened Common
  import opened Strings
  import opened Seqs

  const Separators: set<char> := {'/', '\\'}

  predicate IsSeparatorFree(s: string)
  {
    forall i :: 0 <= i < |s| ==> s[i] !in Separators
  }

  /**
   * `getParentPath`: the path before its last separator, or nothing when the path has none
   * (so "abc" has no parent, whatever the working directory).
   */
  function GetParentPath(path: string): (r: Option<string>)
  {
    match LastIndexIn(path, Separators)
    case None => None
    case Some(k) => Some(path[..k])
  }

  /** The last segment of a path. */
  function FileName(path: string): (r: string)
  {
    match LastIndexIn(path, Separators)
    case None => path
    case Some(k) => path[k + 1..]
  }

  /** A file name cut at its last '.', or the whole name when it has no '.'. */
  function NameWithoutExtension(name: string): (r: string)
  {
    match LastIndexIn(name, {'.'})
    case None => name
    case Some(k) => name[..k]
  }

  /**
   * A path has a parent exactly when it has a separator; the parent is the part before the
   * last separator, and the file name is the separator-free part after it.
   */
  lemma PathSplit(path: string)
    ensures GetParentPath(path).None? <==> IsSeparatorFree(path)
    ensures GetParentPath(path).None? ==> FileName(path) == path
    ensures GetParentPath(path).Some? ==>
      var parent := GetParentPath(path).value;
      && |parent| < |path| && parent == path[..|parent|] && path[|parent|] in Separators
      && FileName(path) == path[|parent| + 1..]
    ensures IsSeparatorFree(FileName(path))
    ensures |FileName(path)| <= |path| && FileName(path) == path[|path| - |FileName(path)|..]
  {
    LastIndexInIsLast(path, Separators);
  }

  /** The name without extension is a prefix of the name. */
  lemma NameWithoutExtensionIsPrefix(name: string)
    ensures var r := NameWithoutExtension(name); |r| <= |name| && r == name[..|r|]
  {
    LastIndexInIsLast(name, {'.'});
  }

  /** The parts a file path contributes to its patterns: up to two parent directory names, then the bare file name. */
  function PatternParts(filePath: string): (parts: seq<string>)
  {
    var name := NameWithoutExtension(FileName(filePath));
    match GetParentPath(filePath)
    case None => [name]
    case Some(parent) =>
      match GetParentPath(parent)
      case None => [FileName(parent), name]
      case Some(grandParent) => [FileName(grandParent), FileName(parent), name]
  }

  /**
   * The parts are one to three separator-free segments ending with the bare file name,
   * and there is more than one exactly when the path has a directory.
   */
  lemma PatternPartsAreSegments(filePath: string)
    ensures var parts := PatternParts(filePath);
      && 1 <= |parts| <= 3
      && parts[|parts| - 1] == NameWithoutExtension(FileName(filePath))
      && (forall i :: 0 <= i < |parts| ==> IsSeparatorFree(parts[i]))
      && (|parts| == 1 <==> IsSeparatorFree(filePath))
  {
    PathSplit(filePath);
    var f := FileName(filePath);
    var name := NameWithoutExtension(f);
    NameWithoutExtensionIsPrefix(f);
    assert forall i :: 0 <= i < |name| ==> name[i] == f[i];
    match GetParentPath(filePath)
    case None =>
    case Some(parent) =>
      PathSplit(parent);
      match GetParentPath(parent)
      case None =>
      case Some(grandParent) =>
        PathSplit(grandParent);
  }

  /** The three patterns of a file path: its parts joined by ".", "/" and "\". */
  function Patterns(filePath: string): (ps: seq<string>)
    ensures |ps| == 3
  {
    var parts := PatternParts(filePath);
    [Join(parts, "."), Join(parts, "/"), Join(parts, "\\")]
  }

  /** `getPatterns`, which builds the part list by inserting parent names at its front. */
  method GetPatterns(filePath: string) returns (patterns: seq<string>)
    ensures patterns == Patterns(filePath)
  {
    var name := NameWithoutExtension(FileName(filePath));
    var parts := [name];
    var path := GetParentPath(filePath);
    if path.Some? {
      var parent := path.value;
      parts := [FileName(parent)] + parts;
      path := GetParentPath(parent);
      if path.Some? {
        parts := [FileName(path.value)] + parts;
      }
    }
    assert parts == PatternParts(filePath);
    patterns := [Join(parts, "."), Join(parts, "/"), Join(parts, "\\")];
  }

  /** Some of the patterns occurs in the text. */
  predicate AnyOccurs(patterns: seq<string>, text: string)
  {
    exists m :: 0 <= m < |patterns| && Contains(text, patterns[m])
  }

  /** Some pattern of the file occurs in the problem text. */
  predicate Matches(filePath: string, text: string)
  {
    AnyOccurs(Patterns(filePath), text)
  }

  /** A path with a parent is the parent, a separator and the file name. */
  lemma ParentSplit(path: string, parent: string)
    requires GetParentPath(path) == Some(parent)
    ensures OccursAt(path, parent, 0) && path[|parent|] in Separators
    ensures |path| - |FileName(path)| == |parent| + 1
  {
    PathSplit(path);
  }

  /** The name without extension occurs in the path where the file name begins. */
  lemma NameOccursInPath(path: string)
    ensures OccursAt(path, NameWithoutExtension(FileName(path)), |path| - |FileName(path)|)
  {
    var f := FileName(path);
    PathSplit(path);
    NameWithoutExtensionIsPrefix(f);
    assert OccursAt(f, NameWithoutExtension(f), 0);
    OccursWithin(path, |path| - |f|, f, NameWithoutExtension(f), 0);
  }

  /** A '/'-separated path with a parent: "<parent>/<name>" occurs in it, the name starting after the parent's end. */
  lemma SlashTailOccurs(path: string, parent: string)
    requires forall i :: 0 <= i < |path| ==> path[i] != '\\'
    requires GetParentPath(path) == Some(parent)
    ensures OccursAt(path, "/" + NameWithoutExtension(FileName(path)), |parent|)
  {
    ParentSplit(path, parent);
    NameOccursInPath(path);
    assert OccursAt(path, "/", |parent|);
    OccursConcat(path, "/", NameWithoutExtension(FileName(path)), |parent|);
  }

  lemma SlashPatternWithoutParent(path: string)
    requires GetParentPath(path).None?
    ensures Contains(path, Join(PatternParts(path), "/"))
  {
    PathSplit(path);
    NameOccursInPath(path);
    ContainsAt(path, Join(PatternParts(path), "/"), 0);
  }

  lemma SlashPatternWithParent(path: string, parent: string)
    requires forall i :: 0 <= i < |path| ==> path[i] != '\\'
    requires GetParentPath(path) == Some(parent) && GetParentPath(parent).None?
    ensures Contains(path, Join(PatternParts(path), "/"))
  {
    var name := NameWithoutExtension(FileName(path));
    SlashTailOccurs(path, parent);
    ParentSplit(path, parent);
    OccursConcat(path, parent, "/" + name, 0);
    assert Join(PatternParts(path), "/") == parent + ("/" + name);
    ContainsAt(path, parent + ("/" + name), 0);
  }

  lemma PartsWithGrandParent(path: string, parent: string, grandParent: string)
    requires GetParentPath(path) == Some(parent) && GetParentPath(parent) == Some(grandParent)
    ensures PatternParts(path) == [FileName(grandParent), FileName(parent), NameWithoutExtension(FileName(path))]
  {
  }

  /** "<parent name>/<name>" occurs in the path right after the grandparent's separator. */
  lemma ParentNameAndTailOccur(path: string, parent: string, grandParent: string)
    requires forall i :: 0 <= i < |path| ==> path[i] != '\\'
    requires GetParentPath(path) == Some(parent) && GetParentPath(parent) == Some(grandParent)
    ensures OccursAt(path, FileName(parent) + "/" + NameWithoutExtension(FileName(path)), |grandParent| + 1)
  {
    var name := NameWithoutExtension(FileName(path));
    var p := FileName(parent);
    var pAt := |grandParent| + 1;
    ParentSplit(path, parent);
    ParentSplit(parent, grandParent);
    NameOccursInPath(path);
    assert OccursAt(parent, p, pAt);
    OccursWithin(path, 0, parent, p, pAt);
    assert OccursAt(path, "/", |parent|);
    OccursConcat(path, p, "/", pAt);
    OccursConcat(path, p + "/", name, pAt);
  }

  /** The grandparent is a prefix of the path, followed by a '/'. */
  lemma GrandParentPrefix(path: string, parent: string, grandParent: string)
    requires forall i :: 0 <= i < |path| ==> path[i] != '\\'
    requires GetParentPath(path) == Some(parent) && GetParentPath(parent) == Some(grandParent)
    ensures |grandParent| < |path| && grandParent == path[..|grandParent|]
    ensures OccursAt(path, "/", |grandParent|)
  {
    ParentSplit(path, parent);
    ParentSplit(parent, grandParent);
    assert path[|grandParent|] == parent[|grandParent|];
  }

  /** "<name of a prefix>/" occurs in the path when that prefix is followed by a '/'. */
  lemma PrefixNameOccurs(path: string, prefix: string)
    requires |prefix| < |path| && prefix == path[..|prefix|]
    requires OccursAt(path, "/", |prefix|)
    ensures |FileName(prefix)| <= |prefix|
    ensures OccursAt(path, FileName(prefix) + "/", |prefix| - |FileName(prefix)|)
  {
    var g := FileName(prefix);
    var gAt := |prefix| - |g|;
    PathSplit(prefix);
    assert OccursAt(prefix, g, gAt);
    OccursWithin(path, 0, prefix, g, gAt);
    OccursConcat(path, g, "/", gAt);
  }

  lemma SlashPatternWithGrandParent(path: string, parent: string, grandParent: string)
    requires forall i :: 0 <= i < |path| ==> path[i] != '\\'
    requires GetParentPath(path) == Some(parent) && GetParentPath(parent) == Some(grandParent)
    ensures Contains(path, Join(PatternParts(path), "/"))
  {
    var name := NameWithoutExtension(FileName(path));
    var p := FileName(parent);
    var g := FileName(grandParent);
    var gAt := |grandParent| - |g|;
    ParentNameAndTailOccur(path, parent, grandParent);
    GrandParentPrefix(path, parent, grandParent);
    PrefixNameOccurs(path, grandParent);
    OccursConcat(path, g + "/", p + "/" + name, gAt);
    PartsWithGrandParent(path, parent, grandParent);
    assert Join([p, name], "/") == p + "/" + name;
    ContainsAt(path, g + "/" + (p + "/" + name), gAt);
  }

  /** The "/"-joined pattern of a path written with '/' separators only occurs in the path itself. */
  lemma SlashPatternOccursInPath(path: string)
    requires forall i :: 0 <= i < |path| ==> path[i] != '\\'
    ensures Contains(path, Patterns(path)[1])
  {
    match GetParentPath(path)
    case None =>
      SlashPatternWithoutParent(path);
    case Some(parent) =>
      match GetParentPath(parent)
      case None =>
        SlashPatternWithParent(path, parent);
      case Some(grandParent) =>
        SlashPatternWithGrandParent(path, parent, grandParent);
  }

  /** A failure text that quotes a '/'-separated changed path matches that file. */
  lemma TextQuotingPathMatches(path: string, text: string)
    requires forall i :: 0 <= i < |path| ==> path[i] != '\\'
    requires Contains(text, path)
    ensures Matches(path, text)
  {
    SlashPatternOccursInPath(path);
    ContainsTransitive(text, path, Patterns(path)[1]);
    assert Patterns(path)[1] in Patterns(path);
  }

  /**
   * A top-level file whose only '.' is its first character (".gitignore") has the empty name
   * without extension, so all three of its patterns are empty and it matches every text.
   */
  lemma DotFileMatchesEveryText(path: string, text: string)
    requires |path| > 0 && path[0] == '.' && IsSeparatorFree(path)
    requires forall i :: 0 < i < |path| ==> path[i] != '.'
    ensures Matches(path, text)
  {
    PathSplit(path);
    LastIndexInIsLast(path, {'.'});
    assert LastIndexIn(path, {'.'}) == Some(0);
    assert NameWithoutExtension(FileName(path)) == "";
    assert Patterns(path)[0] == "";
    ContainsAt(text, "", 0);
    assert Patterns(path)[0] in Patterns(path);
  }

  /** The index of the first file that matches the text, or the number of files when none does. */
  function FirstMatchIndex(files: seq<string>, text: string): (k: nat)
    ensures k <= |files|
  {
    FirstIndex(files, f => Matches(f, text))
  }

  /** The path of the first modified file that matches the text. */
  function BrokenFileOf(files: seq<string>, text: string): (r: Option<string>)
  {
    var k := FirstMatchIndex(files, text);
    if k < |files| then Some(files[k]) else None
  }

  lemma BrokenFileOfIsFirstMatch(files: seq<string>, text: string)
    ensures BrokenFileOf(files, text).None? <==> forall j :: 0 <= j < |files| ==> !Matches(files[j], text)
    ensures BrokenFileOf(files, text).Some? ==>
      exists k :: 0 <= k < |files| && files[k] == BrokenFileOf(files, text).value
               && Matches(files[k], text) && forall j :: 0 <= j < k ==> !Matches(files[j], text)
  {
    var k := FirstMatchIndex(files, text);
    FirstIndexIsFirst(files, f => Matches(f, text));
    if k < |files| {
      assert files[k] == BrokenFileOf(files, text).value;
    }
  }

  /** `findBrokenFile`: scans the change's files and each file's patterns, returning at the first hit. */
  method FindBrokenFile(change: VcsChange, text: string) returns (r: Option<string>)
    ensures r == BrokenFileOf(change.files, text)
  {
    var i := 0;
    while i < |change.files|
      invariant 0 <= i <= |change.files|
      invariant forall j :: 0 <= j < i ==> !Matches(change.files[j], text)
    {
      var filePath := change.files[i];
      var patterns := GetPatterns(filePath);
      var found := AnyPatternOccurs(patterns, text);
      if found {
        FirstMatchIsBrokenFile(change.files, text, i);
        return Some(filePath);
      }
      i := i + 1;
    }
    FirstMatchIsBrokenFile(change.files, text, i);
    return None;
  }

  /** The inner loop of `findBrokenFile`: whether the text contains one of the patterns. */
  method AnyPatternOccurs(patterns: seq<string>, text: string) returns (found: bool)
    ensures found == AnyOccurs(patterns, text)
  {
    var k := 0;
    while k < |patterns|
      invariant 0 <= k <= |patterns|
      invariant forall m :: 0 <= m < k ==> !Contains(text, patterns[m])
    {
      if Contains(text, patterns[k]) {
        return true;
      }
      k := k + 1;
    }
    return false;
  }

  /** The broken file is the first matching one, after a prefix of non-matching files. */
  lemma FirstMatchIsBrokenFile(files: seq<string>, text: string, i: nat)
    requires i <= |files|
    requires forall j :: 0 <= j < i ==> !Matches(files[j], text)
    requires i < |files| ==> Matches(files[i], text)
    ensures BrokenFileOf(files, text) == if i < |files| then Some(files[i]) else None
  {
    var k := FirstMatchIndex(files, text);
    FirstIndexIsFirst(files, f => Matches(f, text));
    assert k == i;
  }

  /** The related VCS changes of the descriptors, with missing ones dropped. */
  function RelatedChanges(descriptors: seq<ChangeDescriptor>): (r: seq<VcsChange>)
  {
    if |descriptors| == 0 then []
    else
      (match descriptors[0].relatedVcsChange case None => [] case Some(c) => [c])
      + RelatedChanges(descriptors[1..])
  }

  lemma {:induction false} RelatedChangesAppend(a: seq<ChangeDescriptor>, b: seq<ChangeDescriptor>)
    ensures RelatedChanges(a + b) == RelatedChanges(a) + RelatedChanges(b)
  {
    if |a| > 0 {
      assert (a + b)[1..] == a[1..] + b;
      RelatedChangesAppend(a[1..], b);
    } else {
      assert a + b == b;
    }
  }

  predicate IsMatchingChange(c: VcsChange, text: string)
  {
    BrokenFileOf(c.files, text).Some?
  }

  /** The changes some file of which the text mentions, in change order. */
  function MatchingChanges(changes: seq<VcsChange>, text: string): seq<VcsChange>
  {
    Filter(changes, c => IsMatchingChange(c, text))
  }

  /** Every matching change has exactly one committer, and it is the same user for all of them. */
  predicate OneSharedCommitter(ms: seq<VcsChange>)
  {
    forall k :: 0 <= k < |ms| ==> |ms[k].committers| == 1 && ms[k].committers == ms[0].committers
  }

  /**
   * The heuristic's answer for one problem text: abstain unless the build promotion is a
   * `BuildPromotionEx` and some change matches; abstain if a matching change does not have
   * exactly one committer or two matching changes have different committers; otherwise blame
   * that committer, naming the broken file of the last matching change.
   */
  function Verdict(b: Build, text: string): (r: Option<Pair>)
  {
    if !b.promotionIsEx then None else VerdictOn(RelatedChanges(b.detectedChanges), text)
  }

  /** The answer once the related changes are known. */
  function VerdictOn(changes: seq<VcsChange>, text: string): (r: Option<Pair>)
  {
    var ms := MatchingChanges(changes, text);
    if |ms| == 0 || !OneSharedCommitter(ms) then None
    else
      FilterKeepsExactly(changes, c => IsMatchingChange(c, text));
      Some(Pair(Some(ms[0].committers[0]), ChangedFile(BrokenFileOf(ms[|ms| - 1].files, text).value)))
  }

  /** Splitting the changes splits the matching ones the same way. */
  lemma MatchingChangesSplit(changes: seq<VcsChange>, i: nat, text: string)
    requires i <= |changes|
    ensures MatchingChanges(changes, text) == MatchingChanges(changes[..i], text) + MatchingChanges(changes[i..], text)
  {
    assert changes == changes[..i] + changes[i..];
    FilterAppend(changes[..i], changes[i..], c => IsMatchingChange(c, text));
  }

  /** One more change adds itself to the matching ones exactly when it matches. */
  lemma MatchingChangesSnoc(changes: seq<VcsChange>, i: nat, text: string, found: Option<string>)
    requires i < |changes| && found == BrokenFileOf(changes[i].files, text)
    ensures found.Some? ==> MatchingChanges(changes[..i + 1], text) == MatchingChanges(changes[..i], text) + [changes[i]]
    ensures found.None? ==> MatchingChanges(changes[..i + 1], text) == MatchingChanges(changes[..i], text)
  {
    assert changes[..i + 1] == changes[..i] + [changes[i]];
    FilterAppend(changes[..i], [changes[i]], c => IsMatchingChange(c, text));
  }

  /** A prefix of matching changes without one shared committer spoils every extension of it. */
  lemma NotSharedExtends(ms: seq<VcsChange>, rest: seq<VcsChange>)
    requires |ms| > 0 && !OneSharedCommitter(ms)
    ensures !OneSharedCommitter(ms + rest)
  {
    var all := ms + rest;
    assert all[0] == ms[0];
    assert forall k :: 0 <= k < |ms| ==> all[k] == ms[k];
  }

  /** A matching change with the one shared committer keeps the committer shared. */
  lemma AcceptMatchingChange(ms: seq<VcsChange>, c: VcsChange)
    requires |c.committers| == 1
    requires |ms| > 0 ==> OneSharedCommitter(ms) && c.committers[0] == ms[0].committers[0]
    ensures OneSharedCommitter(ms + [c])
    ensures (ms + [c])[0].committers[0] == c.committers[0] && (ms + [c])[|ms|] == c
  {
    var all := ms + [c];
    assert forall k :: 0 <= k < |ms| ==> all[k] == ms[k];
  }

  /** A matching change without exactly one committer, or with another committer, spoils the matching changes. */
  lemma RejectMatchingChange(ms: seq<VcsChange>, c: VcsChange)
    requires |c.committers| != 1 || (|ms| > 0 && |ms[0].committers| == 1 && c.committers[0] != ms[0].committers[0])
    ensures |ms + [c]| > 0 && !OneSharedCommitter(ms + [c])
  {
    var all := ms + [c];
    assert all[|ms|] == c && c in all;
    if |ms| > 0 {
      assert all[0] == ms[0];
    }
  }

  /** `findResponsibleUser(String)`: one pass over the changes, keeping the committer and broken file found so far. */
  method FindResponsibleUser(b: Build, text: string) returns (r: Option<Pair>)
    ensures r == Verdict(b, text)
  {
    if !b.promotionIsEx {
      return None;
    }
    r := FindInChanges(RelatedChanges(b.detectedChanges), text);
  }

  /** The loop of `findResponsibleUser(String)` over the related changes. */
  method FindInChanges(changes: seq<VcsChange>, text: string) returns (r: Option<Pair>)
    ensures r == VerdictOn(changes, text)
  {
    ghost var ms: seq<VcsChange> := [];
    var responsibleUser: Option<User> := None;
    var brokenFile: Option<string> := None;
    var i := 0;
    while i < |changes|
      invariant 0 <= i <= |changes|
      invariant ms == MatchingChanges(changes[..i], text)
      invariant |ms| == 0 <==> responsibleUser.None?
      invariant |ms| > 0 ==> OneSharedCommitter(ms) && responsibleUser == Some(ms[0].committers[0])
      invariant |ms| > 0 ==> brokenFile == BrokenFileOf(ms[|ms| - 1].files, text)
    {
      var foundBrokenFile := FindBrokenFile(changes[i], text);
      MatchingChangesSnoc(changes, i, text, foundBrokenFile);
      if foundBrokenFile.Some? {
        var changeCommitters := changes[i].committers;
        if |changeCommitters| != 1 {
          RejectMatchingChange(ms, changes[i]);
          SpoiledPrefixAbstains(changes, text, i);
          return None;
        }
        var foundResponsibleUser := changeCommitters[0];
        if responsibleUser.Some? && responsibleUser.value != foundResponsibleUser {
          RejectMatchingChange(ms, changes[i]);
          SpoiledPrefixAbstains(changes, text, i);
          return None;
        }
        AcceptMatchingChange(ms, changes[i]);
        ms := ms + [changes[i]];
        responsibleUser := Some(foundResponsibleUser);
        brokenFile := foundBrokenFile;
      }
      i := i + 1;
    }
    assert changes[..i] == changes;
    if responsibleUser.None? {
      return None;
    }
    SharedCommitterVerdict(changes, text);
    return Some(Pair(responsibleUser, ChangedFile(brokenFile.value)));
  }

  /** When the matching changes share one committer, the verdict blames that committer for the last one's broken file. */
  lemma SharedCommitterVerdict(changes: seq<VcsChange>, text: string)
    requires var ms := MatchingChanges(changes, text);
      |ms| > 0 && OneSharedCommitter(ms)
    ensures var ms := MatchingChanges(changes, text);
      && BrokenFileOf(ms[|ms| - 1].files, text).Some?
      && VerdictOn(changes, text) == Some(Pair(Some(ms[0].committers[0]), ChangedFile(BrokenFileOf(ms[|ms| - 1].files, text).value)))
  {
    FilterKeepsExactly(changes, c => IsMatchingChange(c, text));
  }

  /**
   * Once the matching changes of a prefix fail to share one committer, the heuristic abstains,
   * whatever the later changes are.
   */
  lemma SpoiledPrefixAbstains(changes: seq<VcsChange>, text: string, i: nat)
    requires i < |changes|
    requires var ms := MatchingChanges(changes[..i + 1], text);
      |ms| > 0 && !OneSharedCommitter(ms)
    ensures VerdictOn(changes, text).None?
  {
    NotSharedExtends(MatchingChanges(changes[..i + 1], text), MatchingChanges(changes[i + 1..], text));
    MatchingChangesSplit(changes, i + 1, text);
  }

  /** A descriptor without a related VCS change contributes no change. */
  lemma {:induction false} RelatedChangesSkipMissing(ds: seq<ChangeDescriptor>, i: nat)
    requires i <= |ds|
    ensures RelatedChanges(ds[..i] + [ChangeDescriptor(None)] + ds[i..]) == RelatedChanges(ds)
  {
    RelatedChangesAppend(ds[..i] + [ChangeDescriptor(None)], ds[i..]);
    RelatedChangesAppend(ds[..i], [ChangeDescriptor(None)]);
    RelatedChangesAppend(ds[..i], ds[i..]);
    assert RelatedChanges([ChangeDescriptor(None)]) == [];
    assert ds[..i] + ds[i..] == ds;
  }

  /** A change descriptor without a related VCS change does not affect the heuristic. */
  lemma DescriptorWithoutChangeIsIgnored(b: Build, text: string, i: nat)
    requires i <= |b.detectedChanges|
    ensures var ds := b.detectedChanges[..i] + [ChangeDescriptor(None)] + b.detectedChanges[i..];
      Verdict(b.(detectedChanges := ds), text) == Verdict(b, text)
  {
    RelatedChangesSkipMissing(b.detectedChanges, i);
  }

  /** A matching change with no committer or with several committers makes the heuristic abstain. */
  lemma {:induction false} SeveralCommittersAbstain(b: Build, text: string, c: VcsChange)
    requires c in RelatedChanges(b.detectedChanges) && IsMatchingChange(c, text)
    requires |c.committers| != 1
    ensures Verdict(b, text).None?
  {
    var changes := RelatedChanges(b.detectedChanges);
    FilterKeepsExactly(changes, c' => IsMatchingChange(c', text));
    var k :| 0 <= k < |changes| && changes[k] == c;
  }

  /** Two matching changes by different sole committers make the heuristic abstain. */
  lemma {:induction false} DifferentCommittersAbstain(b: Build, text: string, c1: VcsChange, c2: VcsChange)
    requires c1 in RelatedChanges(b.detectedChanges) && IsMatchingChange(c1, text)
    requires c2 in RelatedChanges(b.detectedChanges) && IsMatchingChange(c2, text)
    requires |c1.committers| == 1 && |c2.committers| == 1 && c1.committers[0] != c2.committers[0]
    ensures Verdict(b, text).None?
  {
    var changes := RelatedChanges(b.detectedChanges);
    FilterKeepsExactly(changes, c => IsMatchingChange(c, text));
    var k1 :| 0 <= k1 < |changes| && changes[k1] == c1;
    var k2 :| 0 <= k2 < |changes| && changes[k2] == c2;
  }

  /**
   * The heuristic blames a user exactly when the promotion is a `BuildPromotionEx`, some change
   * matches the text, and every matching change was committed by that user alone; an answer
   * always names a user, and its reason names a file of a matching change that the text mentions.
   */
  lemma {:induction false} VerdictBlamesTheSoleCommitter(b: Build, text: string, u: User)
    ensures (Verdict(b, text).Some? && Verdict(b, text).value.user == Some(u)) <==>
      && b.promotionIsEx
      && (exists c :: c in RelatedChanges(b.detectedChanges) && IsMatchingChange(c, text))
      && (forall c :: c in RelatedChanges(b.detectedChanges) && IsMatchingChange(c, text) ==> c.committers == [u])
    ensures Verdict(b, text).Some? ==>
      && Verdict(b, text).value.user.Some?
      && Verdict(b, text).value.reason.ChangedFile?
      && exists c :: c in RelatedChanges(b.detectedChanges)
           && BrokenFileOf(c.files, text) == Some(Verdict(b, text).value.reason.path)
  {
    var changes := RelatedChanges(b.detectedChanges);
    var ms := MatchingChanges(changes, text);
    FilterKeepsExactly(changes, c => IsMatchingChange(c, text));
    if b.promotionIsEx && |ms| > 0 {
      assert ms[0] in changes && IsMatchingChange(ms[0], text);
      var last := ms[|ms| - 1];
      assert last in changes && IsMatchingChange(last, text);
      if (forall c :: c in changes && IsMatchingChange(c, text) ==> c.committers == [u]) {
        assert forall c | c in ms :: c in changes && IsMatchingChange(c, text);
        assert OneSharedCommitter(ms);
      }
      if OneSharedCommitter(ms) {
        forall c | c in changes && IsMatchingChange(c, text)
          ensures c.committers == [ms[0].committers[0]]
        {
          var k :| 0 <= k < |changes| && changes[k] == c;
          assert c in ms;
        }
      }
    }
  }

  /** `findResponsibleUser(STestRun)` asks about the test's name, a space and the run's full text. */
  function TestText(t: TestRun): string
  {
    t.testName + " " + t.fullText
  }

  /** The problem text: each collected compiler message followed by a space, then a space and the description. */
  function ProblemText(p: BuildProblem): string
  {
    AppendEach(p.compileErrors) + " " + p.description
  }

  /** The test text mentions the test's name and its full output. */
  lemma TestTextMentionsNameAndOutput(t: TestRun)
    ensures Contains(TestText(t), t.testName) && Contains(TestText(t), t.fullText)
  {
    ContainsInfix("", t.testName, " " + t.fullText);
    assert "" + t.testName + (" " + t.fullText) == TestText(t);
    ContainsInfix(t.testName + " ", t.fullText, "");
    assert t.testName + " " + t.fullText + "" == TestText(t);
  }

  /** The problem text mentions every collected compiler message and the problem's description. */
  lemma ProblemTextMentionsErrorsAndDescription(p: BuildProblem)
    ensures forall i :: 0 <= i < |p.compileErrors| ==> Contains(ProblemText(p), p.compileErrors[i])
    ensures Contains(ProblemText(p), p.description)
  {
    var pre := AppendEach(p.compileErrors);
    var post := " " + p.description;
    assert ProblemText(p) == pre + post;
    AppendEachContainsEach(p.compileErrors);
    forall i | 0 <= i < |p.compileErrors|
      ensures Contains(pre + post, p.compileErrors[i])
    {
      ContainsExtends(pre, post, p.compileErrors[i]);
    }
    ContainsInfix(pre + " ", p.description, "");
    assert pre + " " + p.description + "" == pre + post;
  }

  /** So a compiler message that quotes a '/'-separated changed path makes that file match the problem. */
  lemma CompileErrorQuotingPathMatches(path: string, p: BuildProblem, i: nat)
    requires forall k :: 0 <= k < |path| ==> path[k] != '\\'
    requires i < |p.compileErrors| && Contains(p.compileErrors[i], path)
    ensures Matches(path, ProblemText(p))
  {
    ProblemTextMentionsErrorsAndDescription(p);
    ContainsTransitive(ProblemText(p), p.compileErrors[i], path);
    TextQuotingPathMatches(path, ProblemText(p));
  }
}
