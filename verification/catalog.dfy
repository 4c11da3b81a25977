/** The asset catalog: for every version folder under the asset directory,
    the SDK files that version installs. It is built once from the folder
    listings, dropping each folder's `sources.txt` provenance note. */
module Catalog {

  import opened Common

  type Version = string

  /** Listing of the asset directory: each version folder's entries, in the
      order the directory listing returned them. */
  type AssetListing = map<Version, seq<string>>

  /** Version -> ordered list of SDK file names. */
  type Catalog = map<Version, seq<string>>

  const SourcesFile: string := "sources.txt"

  /** `part` is `full` with entry `i`, the first `x`, taken out and every
      other entry kept in order. */
  predicate RemovedFirstAt<T(==)>(full: seq<T>, part: seq<T>, x: T, i: nat) {
    && i < |full| && |part| == |full| - 1
    && full[i] == x
    && (forall k :: 0 <= k < i ==> full[k] != x && part[k] == full[k])
    && (forall k :: i <= k < |part| ==> part[k] == full[k + 1])
  }

  ghost predicate RemovedFirst<T>(full: seq<T>, part: seq<T>, x: T) {
    exists i: nat :: RemovedFirstAt(full, part, x, i)
  }

  /** `lst.pop(lst.index(x))`: drop the first occurrence of `x`. */
  function RemoveFirst<T(==)>(s: seq<T>, x: T): (r: seq<T>)
    requires x in s
    ensures RemovedFirstAt(s, r, x, IndexOf(s, x))
  {
    if s[0] == x then s[1..]
    else [s[0]] + RemoveFirst(s[1..], x)
  }

  /** The removal point of a first-occurrence removal is where `list.index`
      finds `x`. */
  lemma RemovedFirstAtIndex<T>(full: seq<T>, part: seq<T>, x: T, i: nat)
    requires RemovedFirstAt(full, part, x, i)
    ensures x in full && i == IndexOf(full, x)
  {
  }

  /** At most one list is `full` with its first `x` taken out, so a version's
      file list is determined by its folder listing. */
  lemma RemovedFirstUnique<T>(full: seq<T>, p: seq<T>, q: seq<T>, x: T)
    requires RemovedFirst(full, p, x) && RemovedFirst(full, q, x)
    ensures p == q
  {
  }

  /** Removing one entry from a duplicate-free listing leaves a duplicate-free
      list that no longer holds the removed name. */
  lemma RemoveFirstNoDuplicates<T>(s: seq<T>, x: T)
    requires x in s && NoDuplicates(s)
    ensures NoDuplicates(RemoveFirst(s, x))
    ensures x !in RemoveFirst(s, x)
  {
  }

  /** Lines 15-19: one entry per version folder; each entry is the folder's
      listing without its first `sources.txt`. A folder without that file
      makes `list.index` raise while the module loads: no catalog. */
  function BuildCatalog(listing: AssetListing): (r: Option<Catalog>)
    ensures r.Some? <==> forall v :: v in listing ==> SourcesFile in listing[v]
    ensures r.Some? ==> r.value.Keys == listing.Keys
    ensures r.Some? ==> forall v :: v in listing ==> RemovedFirst(listing[v], r.value[v], SourcesFile)
  {
    if forall v :: v in listing ==> SourcesFile in listing[v] then
      Some(map v | v in listing :: RemoveFirst(listing[v], SourcesFile))
    else
      None
  }

  /** Every version's list is duplicate-free and has no `sources.txt` when the
      folder listings are duplicate-free, as directory listings are. */
  predicate WellFormed(catalog: Catalog) {
    forall v :: v in catalog ==> NoDuplicates(catalog[v]) && SourcesFile !in catalog[v]
  }

  lemma BuildCatalogWellFormed(listing: AssetListing)
    requires BuildCatalog(listing).Some?
    requires forall v :: v in listing ==> NoDuplicates(listing[v])
    ensures WellFormed(BuildCatalog(listing).value)
  {
  }

  /** `GetFilesForVersion`: an unknown version has no files. */
  function GetFilesForVersion(catalog: Catalog, version: Version): seq<string> {
    if version !in catalog then [] else catalog[version]
  }

  /** What `GetFilesForVersion` returns for a catalog built from the asset
      folders: nothing for a version without a folder, and otherwise that
      folder's listing with the first `sources.txt` taken out. */
  lemma FilesForBuiltVersion(listing: AssetListing, version: Version)
    requires BuildCatalog(listing).Some?
    ensures version !in listing ==> GetFilesForVersion(BuildCatalog(listing).value, version) == []
    ensures version in listing ==>
      RemovedFirst(listing[version], GetFilesForVersion(BuildCatalog(listing).value, version), SourcesFile)
  {
  }
}
