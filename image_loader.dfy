/**
 * ImageLoader.java: get-or-load of images on top of a Cache, keyed by name.
 *
 * `load` and `getFallback` are abstract in the source; here they are a function
 * and a value fixed when the loader is made. Every call of `load` is recorded in
 * `loads`, so that the contracts can say when loading happens.
 */
module Images {
  import opened Wrappers
  import opened Caching
  import JavaLang

  class ImageLoader<I(==)> {
    const cachedImages: Cache<I>
    const load: string -> I
    const fallback: I
    var loads: seq<string>

    /** ImageLoader(Cache): wraps an existing cache. */
    constructor (imageCache: Cache<I>, load: string -> I, fallback: I)
      ensures cachedImages == imageCache && this.load == load && this.fallback == fallback
      ensures loads == []
    {
      cachedImages := imageCache;
      this.load := load;
      this.fallback := fallback;
      loads := [];
    }

    /** cache(image, name): adds exactly one entry and hands the image back unchanged. */
    method Cache(image: I, name: string, now: int) returns (r: I)
      requires cachedImages.Valid()
      modifies cachedImages
      ensures cachedImages.Valid() && r == image
      ensures |cachedImages.cached| == |old(cachedImages.cached)| + 1
      ensures cachedImages.cached[..|old(cachedImages.cached)|] == old(cachedImages.cached)
      ensures ValueOf(cachedImages.cached[|old(cachedImages.cached)|..], name) == Some(image)
      ensures JustAdded(cachedImages.cached[|old(cachedImages.cached)|], name, image, now)
      ensures cachedImages.events == old(cachedImages.events) + [OnAdd(cachedImages.cached[|old(cachedImages.cached)|])]
    {
      cachedImages.Add(name, image, now);
      ghost var added := cachedImages.cached[|old(cachedImages.cached)|..];
      assert added == [cachedImages.cached[|old(cachedImages.cached)|]];
      r := image;
    }

    /** The name is present: the first entry's value comes back, and nothing is added. */
    method Lookup(name: string, now: int) returns (r: Option<I>)
      requires cachedImages.Valid()
      modifies cachedImages.cached
      ensures r == ValueOf(cachedImages.cached, name)
      ensures forall i :: 0 <= i < |cachedImages.cached| ==>
        cachedImages.cached[i].expired == old(cachedImages.cached[i].expired)
      ensures forall i :: 0 <= i < |cachedImages.cached| ==>
        cachedImages.cached[i].lastUpdated ==
          if FirstWithKey(cachedImages.cached, name) == Some(i) then now else old(cachedImages.cached[i].lastUpdated)
    {
      var present := cachedImages.ContainsKey(name, now);
      if present {
        r := cachedImages.Get(name, now);
      } else {
        r := None;
      }
    }

    /** getCachedOrLoad(image, name): the cached image when `name` is present, else `image`, which is then cached. */
    method GetCachedOrLoadImage(image: I, name: string, now: int) returns (r: I)
      requires cachedImages.Valid()
      modifies cachedImages, cachedImages.cached
      ensures cachedImages.Valid()
      ensures old(ValueOf(cachedImages.cached, name)).Some? ==>
        r == old(ValueOf(cachedImages.cached, name)).value
        && cachedImages.cached == old(cachedImages.cached) && cachedImages.events == old(cachedImages.events)
      ensures old(ValueOf(cachedImages.cached, name)).None? ==>
        r == image && |cachedImages.cached| == |old(cachedImages.cached)| + 1
        && cachedImages.cached[..|old(cachedImages.cached)|] == old(cachedImages.cached)
        && ValueOf(cachedImages.cached, name) == Some(image)
        && JustAdded(cachedImages.cached[|old(cachedImages.cached)|], name, image, now)
        && cachedImages.events == old(cachedImages.events) + [OnAdd(cachedImages.cached[|old(cachedImages.cached)|])]
      ensures forall i :: 0 <= i < |old(cachedImages.cached)| ==>
        cachedImages.cached[i].expired == old(cachedImages.cached[i].expired)
      ensures forall i :: 0 <= i < |old(cachedImages.cached)| ==>
        cachedImages.cached[i].lastUpdated ==
          if FirstWithKey(old(cachedImages.cached), name) == Some(i) then now else old(cachedImages.cached[i].lastUpdated)
    {
      var hit := Lookup(name, now);
      if hit.Some? {
        r := hit.value;
      } else {
        r := Cache(image, name, now);
        CachedAfterMiss(old(cachedImages.cached), cachedImages.cached, name);
      }
    }

    /** getCachedOrLoad(path, name): like the above, but `load(path)` runs only on a miss. */
    method GetCachedOrLoadNamed(path: string, name: string, now: int) returns (r: I)
      requires cachedImages.Valid()
      modifies this, cachedImages, cachedImages.cached
      ensures cachedImages.Valid()
      ensures loads == old(loads) + if old(ValueOf(cachedImages.cached, name)).Some? then [] else [path]
      ensures old(ValueOf(cachedImages.cached, name)).Some? ==>
        r == old(ValueOf(cachedImages.cached, name)).value
        && cachedImages.cached == old(cachedImages.cached) && cachedImages.events == old(cachedImages.events)
      ensures old(ValueOf(cachedImages.cached, name)).None? ==>
        r == load(path) && |cachedImages.cached| == |old(cachedImages.cached)| + 1
        && cachedImages.cached[..|old(cachedImages.cached)|] == old(cachedImages.cached)
        && ValueOf(cachedImages.cached, name) == Some(load(path))
        && JustAdded(cachedImages.cached[|old(cachedImages.cached)|], name, load(path), now)
        && cachedImages.events == old(cachedImages.events) + [OnAdd(cachedImages.cached[|old(cachedImages.cached)|])]
      ensures forall i :: 0 <= i < |old(cachedImages.cached)| ==>
        cachedImages.cached[i].expired == old(cachedImages.cached[i].expired)
      ensures forall i :: 0 <= i < |old(cachedImages.cached)| ==>
        cachedImages.cached[i].lastUpdated ==
          if FirstWithKey(old(cachedImages.cached), name) == Some(i) then now else old(cachedImages.cached[i].lastUpdated)
    {
      var hit := Lookup(name, now);
      if hit.Some? {
        r := hit.value;
      } else {
        loads := loads + [path];
        r := Cache(load(path), name, now);
        CachedAfterMiss(old(cachedImages.cached), cachedImages.cached, name);
      }
    }

    /** getCachedOrLoad(path): the name is the decimal text of the path's String.hashCode. */
    method GetCachedOrLoad(path: string, now: int) returns (r: I)
      requires cachedImages.Valid()
      modifies this, cachedImages, cachedImages.cached
      ensures cachedImages.Valid()
      ensures loads == old(loads) + if old(ValueOf(cachedImages.cached, HashName(path))).Some? then [] else [path]
      ensures old(ValueOf(cachedImages.cached, HashName(path))).Some? ==>
        r == old(ValueOf(cachedImages.cached, HashName(path))).value
        && cachedImages.cached == old(cachedImages.cached) && cachedImages.events == old(cachedImages.events)
      ensures old(ValueOf(cachedImages.cached, HashName(path))).None? ==>
        r == load(path) && |cachedImages.cached| == |old(cachedImages.cached)| + 1
        && cachedImages.cached[..|old(cachedImages.cached)|] == old(cachedImages.cached)
        && ValueOf(cachedImages.cached, HashName(path)) == Some(load(path))
        && JustAdded(cachedImages.cached[|old(cachedImages.cached)|], HashName(path), load(path), now)
        && cachedImages.events == old(cachedImages.events) + [OnAdd(cachedImages.cached[|old(cachedImages.cached)|])]
      ensures forall i :: 0 <= i < |old(cachedImages.cached)| ==>
        cachedImages.cached[i].expired == old(cachedImages.cached[i].expired)
      ensures forall i :: 0 <= i < |old(cachedImages.cached)| ==>
        cachedImages.cached[i].lastUpdated ==
          if FirstWithKey(old(cachedImages.cached), HashName(path)) == Some(i) then now else old(cachedImages.cached[i].lastUpdated)
    {
      r := GetCachedOrLoadNamed(path, HashName(path), now);
    }

    /** getCached(name): the cached image, or the fallback; never adds an entry and never loads. */
    method GetCached(name: string, now: int) returns (r: I)
      requires cachedImages.Valid()
      modifies cachedImages.cached
      ensures r == match old(ValueOf(cachedImages.cached, name)) case Some(v) => v case None => fallback
      ensures cachedImages.cached == old(cachedImages.cached) && cachedImages.events == old(cachedImages.events)
      ensures forall i :: 0 <= i < |old(cachedImages.cached)| ==>
        cachedImages.cached[i].expired == old(cachedImages.cached[i].expired)
      ensures forall i :: 0 <= i < |old(cachedImages.cached)| ==>
        cachedImages.cached[i].lastUpdated ==
          if FirstWithKey(old(cachedImages.cached), name) == Some(i) then now else old(cachedImages.cached[i].lastUpdated)
    {
      var hit := Lookup(name, now);
      r := if hit.Some? then hit.value else fallback;
    }
  }

  /** An entry as CachedObject's constructor leaves it: `key` holding `value`, added and used at `now`, not expired. */
  predicate JustAdded<I(==)>(e: CachedObject<I>, key: string, value: I, now: int)
    reads e
  {
    e.key == key && e.value == value && e.timeAdded == now && e.lastUpdated == now && !e.expired
  }

  /** The cache name getCachedOrLoad(path) derives from a path: String.valueOf(path.hashCode()). */
  function HashName(path: string): (name: string)
    ensures JavaLang.IsDecimal(name) && JavaLang.ParseDecimal(name) == JavaLang.StringHash(path)
  {
    JavaLang.DecimalRoundTrip(JavaLang.StringHash(path));
    JavaLang.DecimalText(JavaLang.StringHash(path))
  }

  /** Two paths share a cache name exactly when their hash codes are equal. */
  lemma HashNameCollision(p: string, q: string)
    ensures HashName(p) == HashName(q) <==> JavaLang.StringHash(p) == JavaLang.StringHash(q)
  {
    if HashName(p) == HashName(q) {
      JavaLang.DecimalTextInjective(JavaLang.StringHash(p), JavaLang.StringHash(q));
    }
  }

  /** After a miss on `name`, the appended entry is the first one with that name. */
  lemma CachedAfterMiss<I>(before: seq<CachedObject<I>>, after: seq<CachedObject<I>>, name: string)
    requires ValueOf(before, name).None?
    requires |after| == |before| + 1 && after[..|before|] == before
    requires ValueOf(after[|before|..], name).Some?
    ensures ValueOf(after, name) == ValueOf(after[|before|..], name)
  {
    assert after[|before|..] == [after[|before|]];
    forall i | 0 <= i < |before| ensures after[i].key != name {
      assert after[i] == before[i];
    }
  }
}
