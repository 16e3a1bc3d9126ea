/**
 * The two read-only inputs of both engines: the tile catalog (one entry per idol tile)
 * and the unit catalog (named groups of tile identifiers), with the tile lookup that
 * the tile database offers.
 */
module Catalog {
  import opened Common

  datatype IdolType = Cute | Cool | Passion
  datatype IdolStatus = Vocal | Visual | Dance | Almighty

  /** The attribute spelling used in labels such as `汎用cooldance`. */
  function TypeName(t: IdolType): string
  {
    match t
    case Cute => "cute"
    case Cool => "cool"
    case Passion => "passion"
  }

  function StatusName(s: IdolStatus): string
  {
    match s
    case Vocal => "vocal"
    case Visual => "visual"
    case Dance => "dance"
    case Almighty => "almighty"
  }

  /** A tile of the catalog (`name` is the source's `label`, a Dafny keyword); image, pack and score are not modelled. */
  datatype Tile = Tile(identifier: string, name: string, idolType: IdolType, idolStatus: IdolStatus)

  /** A unit: its label (`name`), its declared size and its members' tile identifiers. */
  datatype Unit = Unit(name: string, numOfMembers: int, tileIdentifiers: seq<string>)

  /** The first catalog tile with exactly this identifier. */
  function FindTile(catalog: seq<Tile>, id: string): (r: Option<Tile>)
    ensures r.Some? <==> exists t :: t in catalog && t.identifier == id
    ensures r.Some? ==> r.value in catalog && r.value.identifier == id
    ensures r.Some? ==> exists k :: 0 <= k < |catalog| && catalog[k] == r.value &&
                                    forall j :: 0 <= j < k ==> catalog[j].identifier != id
  {
    if catalog == [] then None
    else if catalog[0].identifier == id then Some(catalog[0])
    else
      var r := FindTile(catalog[1..], id);
      assert forall t :: t in catalog ==> t == catalog[0] || t in catalog[1..];
      if r.Some? then
        var k :| 0 <= k < |catalog[1..]| && catalog[1..][k] == r.value &&
                 forall j :: 0 <= j < k ==> catalog[1..][j].identifier != id;
        assert catalog[k + 1] == r.value;
        assert forall j :: 0 < j < k + 1 ==> catalog[j] == catalog[1..][j - 1];
        r
      else r
  }

  /** A four-character identifier drops its leading character (`0001` becomes `001`). */
  function NormalizeIdentifier(id: string): (r: string)
    ensures |id| == 4 ==> r == id[1..] && |r| == 3
    ensures |id| != 4 ==> r == id
  {
    if |id| == 4 then id[1..4] else id
  }

  /** The tile database's lookup: normalise the identifier, then find the first match. */
  function GetTileByIdentifier(catalog: seq<Tile>, id: string): (r: Option<Tile>)
    ensures r.Some? <==> exists t :: t in catalog && t.identifier == NormalizeIdentifier(id)
    ensures r.Some? ==> r.value in catalog && r.value.identifier == NormalizeIdentifier(id)
  {
    FindTile(catalog, NormalizeIdentifier(id))
  }

  /**
   * Normalising twice changes nothing more, and looking up a normalised identifier finds
   * what looking up the original finds.
   */
  lemma NormalizeIdentifierStable(catalog: seq<Tile>, id: string)
    ensures NormalizeIdentifier(NormalizeIdentifier(id)) == NormalizeIdentifier(id)
    ensures GetTileByIdentifier(catalog, NormalizeIdentifier(id)) == GetTileByIdentifier(catalog, id)
  {
  }

  /** A three-character identifier padded with one leading character (`001` as `0001`) finds the same tile. */
  lemma PaddedIdentifierLookup(catalog: seq<Tile>, pad: char, id: string)
    requires |id| == 3
    ensures NormalizeIdentifier([pad] + id) == id
    ensures GetTileByIdentifier(catalog, [pad] + id) == GetTileByIdentifier(catalog, id)
  {
    assert ([pad] + id)[1..] == id;
  }
}

