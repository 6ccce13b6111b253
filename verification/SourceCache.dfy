/** The source-file suffix index (src/source_cov/mod.rs). */
module SourceCache {
  import opened Base

  type Components = seq<string>

  /** A cached file: its path and the normal components of it. */
  datatype File = File(path: string, components: Components)

  predicate HasSuffix(c: Components, k: Components) {
    |k| <= |c| && c[|c| - |k|..] == k
  }

  /** The last of the files whose path ends in `k`. */
  function LastWith(files: seq<File>, k: Components): Option<File> {
    if files == [] then None
    else
      var last := files[|files| - 1];
      if HasSuffix(last.components, k) then Some(last) else LastWith(files[..|files| - 1], k)
  }

  lemma {:induction false} LastWithIff(files: seq<File>, k: Components)
    ensures LastWith(files, k).None? <==> forall i :: 0 <= i < |files| ==> !HasSuffix(files[i].components, k)
    ensures LastWith(files, k).Some? ==>
              exists i :: 0 <= i < |files| && LastWith(files, k) == Some(files[i])
                          && HasSuffix(files[i].components, k)
                          && forall j :: i < j < |files| ==> !HasSuffix(files[j].components, k)
  {
    if files != [] {
      var front := files[..|files| - 1];
      LastWithIff(front, k);
      if !HasSuffix(files[|files| - 1].components, k) && LastWith(front, k).Some? {
        var i :| 0 <= i < |front| && LastWith(front, k) == Some(front[i])
                 && HasSuffix(front[i].components, k)
                 && forall j :: i < j < |front| ==> !HasSuffix(front[j].components, k);
        assert files[i] == front[i];
      }
    }
  }

  /** A shorter suffix of a match matches too. */
  lemma {:induction false} ShorterMatches(files: seq<File>, k: Components, i: nat)
    requires i <= |k| && LastWith(files, k).Some?
    ensures LastWith(files, k[i..]).Some?
  {
    var last := files[|files| - 1];
    if HasSuffix(last.components, k) {
      assert HasSuffix(last.components, k[i..]);
    } else if !HasSuffix(last.components, k[i..]) {
      ShorterMatches(files[..|files| - 1], k, i);
    }
  }

  /** The first, so longest, suffix of the query that ends some cached path; the query's length if none does. */
  predicate LongestAt(files: seq<File>, query: Components, i: nat) {
    i < |query| && LastWith(files, query[i..]).Some? && forall j: nat :: j < i ==> LastWith(files, query[j..]).None?
  }

  predicate EndsSome(files: seq<File>, name: string) {
    LastWith(files, [name]).Some?
  }

  class Cache {
    var lookup: map<Components, File>
    ghost var files: seq<File>

    /** The table holds exactly the non-empty suffixes of cached paths, each with the last file that has it. */
    ghost predicate Valid()
      reads this
    {
      forall k :: (k in lookup <==> k != [] && LastWith(files, k).Some?)
                  && (k in lookup ==> Some(lookup[k]) == LastWith(files, k))
    }

    /** The table construction of `SourceCache::new`. */
    constructor (paths: seq<File>)
      ensures Valid() && files == paths
    {
      lookup := map[];
      files := [];
      new;
      for n := 0 to |paths|
        invariant Valid() && files == paths[..n]
      {
        Insert(paths[n]);
        assert paths[..n] + [paths[n]] == paths[..n + 1];
      }
      assert paths[..|paths|] == paths;
    }

    method Insert(file: File)
      requires Valid()
      modifies this
      ensures Valid() && files == old(files) + [file]
    {
      ghost var c, before := file.components, lookup;
      var components := file.components;
      while components != []
        invariant |components| <= |c| && components == c[|c| - |components|..]
        invariant files == old(files)
        invariant forall k :: k in lookup <==> k in before || Inserted(c, k, |components|)
        invariant forall k :: k in lookup ==> lookup[k] == if Inserted(c, k, |components|) then file else before[k]
      {
        SuffixOfLength(c, components);
        lookup := lookup[components := file];
        components := components[1..];
      }
      files := files + [file];
      assert files[..|files| - 1] == old(files);
    }

    /** `lookup_file_name_components`, on the components of the query. */
    method Lookup(query: Components) returns (r: Option<File>)
      requires Valid()
      ensures r.None? <==> query == [] || !EndsSome(files, query[|query| - 1])
      ensures r.Some? ==> exists i: nat :: LongestAt(files, query, i) && r == LastWith(files, query[i..])
    {
      var components := query;
      ghost var i := 0;
      while components != []
        invariant i <= |query| && components == query[i..]
        invariant forall j: nat :: j < i ==> LastWith(files, query[j..]).None?
      {
        if components in lookup {
          ShorterMatches(files, components, |components| - 1);
          assert components[|components| - 1..] == [query[|query| - 1]];
          assert LongestAt(files, query, i);
          return Some(lookup[components]);
        }
        components := components[1..];
        i := i + 1;
      }
      if query != [] {
        assert query[|query| - 1..] == [query[|query| - 1]];
      }
      r := None;
    }
  }

  /** The suffixes of `c` longer than `left`. */
  predicate Inserted(c: Components, k: Components, left: nat) {
    HasSuffix(c, k) && |k| > left
  }

  lemma SuffixOfLength(c: Components, s: Components)
    requires HasSuffix(c, s) && s != []
    ensures HasSuffix(c, s[1..])
    ensures forall k :: Inserted(c, k, |s| - 1) <==> Inserted(c, k, |s|) || k == s
  {
    forall k
      ensures Inserted(c, k, |s| - 1) <==> Inserted(c, k, |s|) || k == s
    {
    }
  }
}
