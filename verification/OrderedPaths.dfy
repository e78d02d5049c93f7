/** std::map's order on path strings, its lower_bound, and the "anything below?" probe built on it
    (src/archive/ustar.cpp:1749-1759, src/archive/archive.cpp:981-993). */
module OrderedPaths {
  import opened Common
  import opened Entries
  import opened ArchivePath

  predicate Less(a: Bytes, b: Bytes) {
    b != [] && (a == [] || a[0] < b[0] || (a[0] == b[0] && Less(a[1..], b[1..])))
  }

  lemma {:induction false} LessIsTransitive(a: Bytes, b: Bytes, c: Bytes)
    requires Less(a, b) && Less(b, c)
    ensures Less(a, c)
  {
    if a != [] && a[0] == b[0] == c[0] { LessIsTransitive(a[1..], b[1..], c[1..]); }
  }

  lemma {:induction false} NothingBelowItself(a: Bytes)
    ensures !Less(a, a)
  {
    if a != [] { NothingBelowItself(a[1..]); }
  }

  method LowerBound(keys: set<Bytes>, from: Bytes) returns (r: Option<Bytes>)
    ensures r.None? ==> forall k :: k in keys ==> Less(k, from)
    ensures r.Some? ==> r.value in keys && !Less(r.value, from)
    ensures r.Some? ==> forall k :: k in keys && !Less(k, from) ==> !Less(k, r.value)
  {
    r := None;
    var rest := keys;
    while exists k :: k in rest
      invariant rest <= keys
      invariant r.None? ==> forall k :: k in keys && k !in rest ==> Less(k, from)
      invariant r.Some? ==> r.value in keys && !Less(r.value, from)
      invariant r.Some? ==> forall k :: k in keys && k !in rest && !Less(k, from) ==> !Less(k, r.value)
      decreases rest
    {
      var k :| k in rest;
      if !Less(k, from) && (r.None? || Less(k, r.value)) {
        NothingBelowItself(k);
        ghost var best := r;
        forall x | x in keys && x !in rest && !Less(x, from) ensures !Less(x, k) {
          if Less(x, k) && best.Some? { LessIsTransitive(x, k, best.value); }
        }
        r := Some(k);
      }
      rest := rest - {k};
    }
  }

  predicate StartsWith(s: Bytes, prefix: Bytes) { |prefix| <= |s| && s[..|prefix|] == prefix }

  /** Everything between a prefix and one of its extensions starts with the prefix. */
  lemma {:induction false} Sandwich(prefix: Bytes, middle: Bytes, extension: Bytes)
    requires StartsWith(extension, prefix) && !Less(middle, prefix) && !Less(extension, middle)
    ensures StartsWith(middle, prefix)
  {
    if prefix != [] {
      assert extension[0] == prefix[0];
      assert extension[1..][..|prefix| - 1] == prefix[1..];
      Sandwich(prefix[1..], middle[1..], extension[1..]);
      assert middle == [middle[0]] + middle[1..];
    }
  }

  lemma {:induction false} ExtensionsAreNotLess(prefix: Bytes, extension: Bytes)
    requires StartsWith(extension, prefix)
    ensures !Less(extension, prefix)
  {
    if prefix != [] {
      assert extension[0] == prefix[0];
      assert extension[1..][..|prefix| - 1] == prefix[1..];
      ExtensionsAreNotLess(prefix[1..], extension[1..]);
    }
  }

  /** The lower_bound probe finds a path below `path` exactly when there is one. */
  method AnythingBelow(keys: set<Bytes>, path: Bytes) returns (found: bool)
    ensures found <==> exists k :: k in keys && Below(path, k)
  {
    var subtree := path + [SLASH];
    var bound := LowerBound(keys, subtree);
    found := bound.Some? && StartsWith(bound.value, subtree);
    forall k | k in keys ensures Below(path, k) <==> StartsWith(k, subtree) { BelowIsPrefix(path, k); }
    if k :| k in keys && Below(path, k) {
      ExtensionsAreNotLess(subtree, k);
      Sandwich(subtree, bound.value, k);
    }
  }

  lemma BelowIsPrefix(path: Bytes, k: Bytes)
    ensures Below(path, k) <==> StartsWith(k, path + [SLASH])
  {
    var subtree := path + [SLASH];
    if StartsWith(k, subtree) {
      assert k[..|path|] == subtree[..|path|];
      assert k[|path|] == subtree[|path|];
    }
    if Below(path, k) { assert k[..|path| + 1] == subtree; }
  }
}
