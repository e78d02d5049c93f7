/** Paths in ustar members: src/archive/ustar.cpp:368-434 and 995-1046. */
module UstarPath {
  import opened Common
  import opened Entries
  import opened ArchivePath

  const NAME_SIZE: nat := 100
  const PREFIX_SIZE: nat := 155
  const MAX_PATH_SIZE: nat := 255

  predicate NoNul(s: Bytes) { forall k :: 0 <= k < |s| ==> s[k] != 0 }

  predicate IsRoot(p: Bytes) { |p| == 1 && p[0] == DOT }

  predicate ValidRelative(p: Bytes) {
    |p| > 0 && NoNul(p) && (IsRoot(p) || AllPlain(Components(p)))
  }

  method ValidateRelativePath(p: Bytes) returns (ok: bool)
    ensures ok <==> ValidRelative(p)
  {
    if p == [] { return false; }
    if exists k :: 0 <= k < |p| && p[k] == 0 { return false; }
    if p[0] == SLASH || p[|p| - 1] == SLASH {
      SlashMakesEmptyComponent(p);
      return false;
    }
    if p == ROOT { return true; }
    ok := ComponentsArePlain(p);
  }

  /** A valid path neither starts nor ends with '/', and "./" is never its start. */
  lemma ValidEnds(p: Bytes)
    requires ValidRelative(p)
    ensures p[0] != SLASH && p[|p| - 1] != SLASH
    ensures |p| > 1 ==> !(p[0] == DOT && p[1] == SLASH)
  {
    if p[0] == SLASH || p[|p| - 1] == SLASH {
      SlashMakesEmptyComponent(p);
    } else if |p| > 1 && p[0] == DOT && p[1] == SLASH {
      DotSlashIsNotPlain(p);
    }
  }

  lemma DotSlashIsNotPlain(p: Bytes)
    requires |p| > 1 && p[0] == DOT && p[1] == SLASH
    ensures !AllPlain(Components(p)) && p != ROOT
  {
    HeadComponent(p, 1);
    assert !Plain(p[..1]);
  }

  // ----- normalizing what other tars write -----

  function StripTail(p: Bytes): (r: Bytes)
    ensures |r| <= |p|
  {
    if |p| > 1 && p[|p| - 1] == SLASH then StripTail(p[..|p| - 1]) else p
  }

  predicate DotSlash(p: Bytes) { |p| > 2 && p[0] == DOT && p[1] == SLASH }

  function StripHead(p: Bytes): Bytes {
    if DotSlash(p) then StripHead(p[2..]) else p
  }

  function Normalize(raw: Bytes): Option<Bytes> {
    var p := StripHead(StripTail(raw));
    if ValidRelative(p) then Some(p) else None
  }

  method NormalizeMemberPath(raw: Bytes) returns (r: Option<Bytes>)
    ensures r == Normalize(raw)
  {
    var path := raw;
    while |path| > 1 && path[|path| - 1] == SLASH
      invariant StripTail(path) == StripTail(raw)
    {
      path := path[..|path| - 1];
    }
    while DotSlash(path)
      invariant StripHead(path) == StripHead(StripTail(raw))
      decreases |path|
    {
      path := path[2..];
    }
    var ok := ValidateRelativePath(path);
    return if ok then Some(path) else None;
  }

  /** Valid paths are their own normal form, and normal forms are valid. */
  lemma NormalizeFixesExactlyValid(p: Bytes)
    ensures Normalize(p) == Some(p) <==> ValidRelative(p)
    ensures Normalize(p).Some? ==> ValidRelative(Normalize(p).value)
  {
    if ValidRelative(p) { ValidEnds(p); }
  }

  // ----- splitting into prefix and name -----

  /** The largest position in [lowest, i] holding a slash. */
  function CutAt(p: Bytes, lowest: nat, i: nat): (r: Option<nat>)
    requires lowest <= i < |p|
    ensures r.Some? ==> lowest <= r.value <= i
  {
    if p[i] == SLASH then Some(i) else if i == lowest then None else CutAt(p, lowest, i - 1)
  }

  lemma {:induction false} CutAtIsLargest(p: Bytes, lowest: nat, i: nat)
    requires lowest <= i < |p|
    ensures var r := CutAt(p, lowest, i);
            if r.Some? then p[r.value] == SLASH && forall k :: r.value < k <= i ==> p[k] != SLASH
            else forall k :: lowest <= k <= i ==> p[k] != SLASH
  {
    if p[i] != SLASH && i != lowest { CutAtIsLargest(p, lowest, i - 1); }
  }

  datatype SplitName = SplitName(prefix: Bytes, name: Bytes)

  /** The cut leaves at most 100 bytes behind it ... */
  function Lowest(p: Bytes): nat { if |p| > NAME_SIZE + 1 then |p| - NAME_SIZE - 1 else 0 }

  /** ... and at most 155 before it. */
  function Highest(p: Bytes): nat
    requires p != []
  {
    if PREFIX_SIZE < |p| - 1 then PREFIX_SIZE else |p| - 1
  }

  function Split(p: Bytes): Option<SplitName> {
    if |p| > MAX_PATH_SIZE || !ValidRelative(p) then None
    else if |p| <= NAME_SIZE then Some(SplitName([], p))
    else
      match CutAt(p, Lowest(p), Highest(p))
      case None => None
      case Some(i) => Some(SplitName(p[..i], p[i + 1..]))
  }

  function Joined(parts: SplitName): Bytes {
    if parts.prefix == [] then parts.name else parts.prefix + [SLASH] + parts.name
  }

  /** Both parts fit their fields and put together they are the path. */
  predicate Cut(p: Bytes, parts: SplitName) {
    Joined(parts) == p && 1 <= |parts.name| <= NAME_SIZE && |parts.prefix| <= PREFIX_SIZE
  }

  /** Up to 255 bytes, splitting fails only when no cut exists, and otherwise finds the cut with the
      longest prefix (a path that fits the name field is not cut). */
  lemma SplitFindsTheLongestCut(p: Bytes)
    requires ValidRelative(p)
    ensures Split(p).Some? ==> |p| <= MAX_PATH_SIZE && Cut(p, Split(p).value)
    ensures |p| <= MAX_PATH_SIZE && Split(p).None? ==> !exists parts :: Cut(p, parts)
    ensures |p| > NAME_SIZE && Split(p).Some?
            ==> forall parts :: Cut(p, parts) ==> |parts.prefix| <= |Split(p).value.prefix|
  {
    if Split(p).Some? { SplitIsACut(p); }
    forall parts | Cut(p, parts) && NAME_SIZE < |p| <= MAX_PATH_SIZE
      ensures Split(p).Some? && |parts.prefix| <= |Split(p).value.prefix|
    {
      CutAtIsLargest(p, Lowest(p), Highest(p));
      CutPosition(p, parts);
    }
  }

  lemma SplitIsACut(p: Bytes)
    requires Split(p).Some?
    ensures Cut(p, Split(p).value)
  {
    ValidEnds(p);
    if |p| > NAME_SIZE {
      var i := |Split(p).value.prefix|;
      CutAtIsLargest(p, Lowest(p), Highest(p));
      JoinedAt(p, i);
    }
  }

  lemma JoinedAt(p: Bytes, i: nat)
    requires i < |p| && p[i] == SLASH && p[0] != SLASH
    ensures Joined(SplitName(p[..i], p[i + 1..])) == p
  {
    assert p == p[..i] + [SLASH] + p[i + 1..];
  }

  lemma CutPosition(p: Bytes, parts: SplitName)
    requires Cut(p, parts) && |p| > NAME_SIZE
    ensures |p| - NAME_SIZE - 1 <= |parts.prefix| <= PREFIX_SIZE && |parts.prefix| < |p| - 1 && p[|parts.prefix|] == SLASH
  {
    assert parts.prefix != [];
  }

  /** The format itself would hold one more: 155 bytes of prefix, the slash and 100 bytes of name. */
  lemma A256BytePathIsRefused() returns (p: Bytes, parts: SplitName)
    ensures ValidRelative(p) && Cut(p, parts) && |p| == MAX_PATH_SIZE + 1 && Split(p).None?
  {
    parts := SplitName(Fill(PREFIX_SIZE, 97), Fill(NAME_SIZE, 98));
    p := Joined(parts);
    ComponentsConcat(parts.prefix, parts.name);
    OnePart(parts.prefix);
    OnePart(parts.name);
    PlainConcat([parts.prefix], [parts.name]);
    PlainSingle(parts.prefix);
    PlainSingle(parts.name);
  }

  /** A path that has a cut is refused exactly when it is 256 bytes long with a slash after byte 155. */
  lemma CutsAreMissedExactlyAt256(p: Bytes)
    requires ValidRelative(p)
    ensures Split(p).None? && (exists parts :: Cut(p, parts)) <==> |p| == MAX_PATH_SIZE + 1 && p[PREFIX_SIZE] == SLASH
  {
    SplitFindsTheLongestCut(p);
    ValidEnds(p);
    if parts :| Cut(p, parts) && |p| > NAME_SIZE { CutPosition(p, parts); }
    if |p| == MAX_PATH_SIZE + 1 && p[PREFIX_SIZE] == SLASH {
      JoinedAt(p, PREFIX_SIZE);
      assert Cut(p, SplitName(p[..PREFIX_SIZE], p[PREFIX_SIZE + 1..]));
    }
  }

  method SplitPath(p: Bytes) returns (r: Option<SplitName>)
    ensures r == Split(p)
  {
    if |p| > MAX_PATH_SIZE { return None; }
    var ok := ValidateRelativePath(p);
    if !ok { return None; }
    if |p| <= NAME_SIZE { return Some(SplitName([], p)); }
    var lowest, highest := Lowest(p), Highest(p);
    var index := highest;
    while true
      invariant lowest <= index <= highest
      invariant CutAt(p, lowest, highest) == CutAt(p, lowest, index)
      decreases index
    {
      if p[index] == SLASH { return Some(SplitName(p[..index], p[index + 1..])); }
      if index == lowest { break; }
      index := index - 1;
    }
    return None;
  }
}
