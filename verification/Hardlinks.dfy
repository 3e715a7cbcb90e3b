/**
 The hard-link table: sources to targets, and a count per target. Files are removed by the
 table when their last link goes, if the file system lets them be removed.
 */
module Hardlinks {
  import opened Common

  type Path = string

  datatype LinkError = NotFound | NotFile

  datatype Result = Ok | Err(error: LinkError)

  /** The form of a directory path. */
  predicate IsDir(path: Path) {
    |path| > 0 && path[|path| - 1] == '/'
  }

  /** The sources linked to a target. */
  function Sources(links: map<Path, Path>, dst: Path): set<Path> {
    set s | s in links && links[s] == dst
  }

  lemma AddSource(links: map<Path, Path>, src: Path, dst: Path)
    requires src !in links
    ensures Sources(links[src := dst], dst) == Sources(links, dst) + {src}
    ensures forall d: Path :: d != dst ==> Sources(links[src := dst], d) == Sources(links, d)
  {
  }

  lemma RemoveSource(links: map<Path, Path>, src: Path)
    requires src in links
    ensures Sources(links - {src}, links[src]) == Sources(links, links[src]) - {src}
    ensures forall d: Path :: d != links[src] ==> Sources(links - {src}, d) == Sources(links, d)
  {
  }

  class LinkManager {
    var links: map<Path, Path>
    var refCounts: map<Path, nat>
    var files: set<Path>             // the paths that exist
    const stuck: set<Path>           // those that cannot be removed

    /** The count of each target is the number of its sources, and there are no zero entries. */
    ghost predicate CountsMatch(expected: map<Path, Path>)
      reads this
    {
      forall d: Path ::
        && (d in refCounts <==> Sources(expected, d) != {})
        && (d in refCounts ==> refCounts[d] == |Sources(expected, d)|)
    }

    ghost predicate Valid()
      reads this
    {
      CountsMatch(links)
    }

    constructor (files: set<Path>, stuck: set<Path>)
      ensures Valid() && links == map[] && this.files == files && this.stuck == stuck
    {
      links, refCounts := map[], map[];
      this.files, this.stuck := files, stuck;
    }

    predicate CanRemove(path: Path)
      reads this
    {
      path in files && path !in stuck
    }

    method RemoveFile(path: Path) returns (ok: bool)
      modifies this`files
      ensures ok <==> old(CanRemove(path))
      ensures files == if ok then old(files) - {path} else old(files)
    {
      ok := CanRemove(path);
      if ok {
        files := files - {path};
      }
    }

    /** The files that are left when the links of `before` lose the source `src`. */
    ghost function FilesWithout(before: map<Path, Path>, src: Path): set<Path>
      reads this
    {
      if src in before && Sources(before, before[src]) == {src} && CanRemove(before[src])
      then files - {before[src]} else files
    }

    /** Called while the count of `path` still includes the source `src` that goes. */
    method DecreaseRefCount(path: Path, ghost before: map<Path, Path>, ghost src: Path) returns (done: bool)
      requires src in before && before[src] == path && CountsMatch(before)
      modifies this`refCounts, this`files
      ensures CountsMatch(before - {src}) && files == old(FilesWithout(before, src))
      ensures done <==> Sources(before, path) != {src} || old(CanRemove(path))
    {
      assert src in Sources(before, path);
      RemoveSource(before, src);
      if path !in refCounts {
        return false;
      }
      var count := refCounts[path] - 1;
      refCounts := refCounts[path := count];
      if count == 0 {
        assert |Sources(before, path) - {src}| == 0;
        refCounts := refCounts - {path};
        done := RemoveFile(path);
      } else {
        assert Sources(before, path) != {src};
        done := true;
      }
    }

    /** Makes `src` a link to `dst`; an old target that loses its last source is removed. */
    method LinkUpdate(src: Path, dst: Path)
      requires Valid()
      modifies this
      ensures Valid() && links == old(links)[src := dst]
      ensures files == if src in old(links) && old(links)[src] == dst then old(files) else old(FilesWithout(links, src))
    {
      ghost var rest := links;
      if src in links {
        var oldDst := links[src];
        if oldDst == dst {
          assert links == links[src := dst];
          return;
        }
        rest := links - {src};
        var _ := DecreaseRefCount(oldDst, links, src);
      }
      assert rest[src := dst] == links[src := dst];
      links := links[src := dst];
      IncreaseRefCount(dst, rest, src);
    }

    method IncreaseRefCount(dst: Path, ghost rest: map<Path, Path>, ghost src: Path)
      requires src !in rest && CountsMatch(rest)
      modifies this`refCounts
      ensures CountsMatch(rest[src := dst])
    {
      AddSource(rest, src, dst);
      assert |Sources(rest, dst) + {src}| == |Sources(rest, dst)| + 1;
      refCounts := refCounts[dst := (if dst in refCounts then refCounts[dst] else 0) + 1];
    }

    /** `dst` must exist, and must be a directory: the test is the reverse of its comment. */
    method CreateLink(src: Path, dst: Path) returns (r: Result)
      requires Valid()
      modifies this
      ensures Valid()
      ensures r ==
        if dst !in old(files) then Err(NotFound)
        else if |dst| == 0 || dst[|dst| - 1] != '/' then Err(NotFile)
        else Ok
      ensures links == if r.Ok? then old(links)[src := dst] else old(links)
      ensures files == if r.Err? || (src in old(links) && old(links)[src] == dst) then old(files)
                       else old(FilesWithout(links, src))
    {
      if dst !in files {
        return Err(NotFound);
      }
      if !IsDir(dst) {
        return Err(NotFile);
      }
      LinkUpdate(src, dst);
      return Ok;
    }

    /** Removes a link, and its target exactly when it was the last one. */
    method LinkRemove(src: Path) returns (r: Option<Path>)
      requires Valid()
      modifies this
      ensures Valid() && links == old(links) - {src}
      ensures r == if src in old(links) then Some(old(links)[src]) else None
      ensures files == old(FilesWithout(links, src))
    {
      if src !in links {
        assert links == links - {src};
        return None;
      }
      var dst := links[src];
      ghost var before := links;
      links := links - {src};
      var _ := DecreaseRefCount(dst, before, src);
      return Some(dst);
    }

    /** Removes a link, or a file that is none. */
    method RemoveLink(src: Path) returns (r: Option<Path>)
      requires Valid()
      modifies this
      ensures Valid() && links == old(links) - {src}
      ensures r == if src in old(links) then Some(old(links)[src]) else if old(CanRemove(src)) then Some(src) else None
      ensures src in old(links) ==> files == old(FilesWithout(links, src))
      ensures src !in old(links) ==> files == old(files) - if r.Some? then {src} else {}
    {
      r := LinkRemove(src);
      if r.None? {
        var ok := RemoveFile(src);
        r := if ok then Some(src) else None;
      }
    }

    /** `link_count` of a target. */
    method LinkCount(path: Path) returns (n: nat)
      requires Valid()
      ensures n == if Sources(links, path) != {} then |Sources(links, path)| else if path in files then 1 else 0
    {
      if path in refCounts {
        return refCounts[path];
      }
      return if path in files then 1 else 0;
    }
  }
}
