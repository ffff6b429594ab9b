/**
 The fixed profile table of `optimize` (main.py:117-130): the accepted
 profile names and, for each, the target sizes in the order the source's
 dictionary yields them (Python dictionaries keep insertion order).
 */
module Profiles {
  import opened Wrappers
  import opened Geometry

  datatype Profile = Lith | Tys

  /** One `size_key: (width, height)` entry of a profile. */
  datatype SizeEntry = SizeEntry(key: string, size: Size)

  /** The list `profiles` the selected name is checked against. */
  const ProfileNames: seq<string> := ["lith", "tys"]

  function Name(p: Profile): string {
    match p
    case Lith => "lith"
    case Tys => "tys"
  }

  /** The membership test `profile not in profiles`, returning the profile
      when the name is known. */
  function Lookup(name: string): (r: Option<Profile>)
    ensures r.None? <==> name !in ProfileNames
    ensures r.Some? ==> Name(r.value) == name
  {
    if name == "lith" then Some(Lith)
    else if name == "tys" then Some(Tys)
    else None
  }

  predicate DistinctKeys(entries: seq<SizeEntry>) {
    forall i, j :: 0 <= i < j < |entries| ==> entries[i].key != entries[j].key
  }

  /** `image_sizes[profile]`: a small and a large target, every dimension
      positive, the small one no larger than the large one on either axis. */
  function ImageSizes(p: Profile): (r: seq<SizeEntry>)
    ensures |r| == 2 && r[0].key == "small" && r[1].key == "large"
    ensures forall i :: 0 <= i < |r| ==> Positive(r[i].size)
    ensures DistinctKeys(r)
    ensures r[0].size.width <= r[1].size.width && r[0].size.height <= r[1].size.height
  {
    match p
    case Lith => [SizeEntry("small", Size(225, 300)), SizeEntry("large", Size(500, 667))]
    case Tys => [SizeEntry("small", Size(150, 150)), SizeEntry("large", Size(450, 450))]
  }

  /** Every known name resolves to the profile bearing it. */
  lemma LookupName(p: Profile)
    ensures Lookup(Name(p)) == Some(p)
  {
  }
}
