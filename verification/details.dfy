/** The detail view: after the simulated fetch delay it looks a vehicle up
    by id with `find`, and shows either that vehicle or a distinct
    "not found" state with an error toast. */
module Details {
  import opened Wrappers
  import opened Types

  /** `c.find(v => v.id === id)`: the first record with that id, or `None`. */
  function FindById(c: seq<Vehicle>, id: string): (r: Option<Vehicle>)
    ensures r.None? <==> forall i :: 0 <= i < |c| ==> c[i].id != id
    ensures r.Some? ==> exists i :: 0 <= i < |c| && c[i] == r.value && c[i].id == id
                                    && forall j :: 0 <= j < i ==> c[j].id != id
  {
    if |c| == 0 then None
    else if c[0].id == id then
      Some(c[0])
    else
      var rest := FindById(c[1..], id);
      if rest.Some? then
        var i :| 0 <= i < |c[1..]| && c[1..][i] == rest.value && c[1..][i].id == id
                 && forall j :: 0 <= j < i ==> c[1..][j].id != id;
        assert c[i + 1] == rest.value;
        rest
      else
        rest
  }

  /** When ids are pairwise distinct the record found is the one holding the id. */
  lemma FindByUniqueId(c: seq<Vehicle>, k: int)
    requires forall i, j :: 0 <= i < j < |c| ==> c[i].id != c[j].id
    requires 0 <= k < |c|
    ensures FindById(c, c[k].id) == Some(c[k])
  {
    var r := FindById(c, c[k].id);
    var i :| 0 <= i < |c| && c[i] == r.value && c[i].id == c[k].id;
    assert i == k;
  }

  /** What the detail page holds: still loading, or the lookup's outcome and
      the error toast raised with it. */
  datatype DetailsState =
    | Loading
    | Loaded(vehicle: Option<Vehicle>, errorToast: Option<string>)

  /** The timer callback: store the lookup result, stop loading, and raise
      "Vehicle not found" exactly when no record matched. */
  function ResolveLookup(c: seq<Vehicle>, id: string): (r: DetailsState)
    ensures r.Loaded?
    ensures r.vehicle == FindById(c, id)
    ensures r.errorToast.Some? <==> forall i :: 0 <= i < |c| ==> c[i].id != id
    ensures r.errorToast.Some? ==> r.errorToast.value == "Vehicle not found"
    ensures r.vehicle.Some? ==> r.vehicle.value in c && r.vehicle.value.id == id
  {
    var found := FindById(c, id);
    Loaded(found, if found.None? then Some("Vehicle not found") else None)
  }

  /** The page renders the not-found view exactly when the toast was raised. */
  predicate ShowsNotFound(s: DetailsState) {
    s.Loaded? && s.vehicle.None?
  }

  lemma NotFoundViewIffToast(c: seq<Vehicle>, id: string)
    ensures ShowsNotFound(ResolveLookup(c, id)) <==> ResolveLookup(c, id).errorToast.Some?
  {
  }

  /** `getStatusColor`: the badge classes of each status. */
  function StatusColor(s: VehicleStatus): (classes: string) {
    match s
    case Active => "bg-green-100 text-green-800 hover:bg-green-200"
    case Expired => "bg-red-100 text-red-800 hover:bg-red-200"
    case Suspended => "bg-amber-100 text-amber-800 hover:bg-amber-200"
    case Pending => "bg-blue-100 text-blue-800 hover:bg-blue-200"
  }

  /** The gray classes of the `default` branch, which no status reaches. */
  const FallbackColor := "bg-gray-100 text-gray-800 hover:bg-gray-200"

  /** Distinct statuses get distinct badges, and none gets the fallback. */
  lemma StatusColorsDistinct(s1: VehicleStatus, s2: VehicleStatus)
    ensures s1 != s2 ==> StatusColor(s1) != StatusColor(s2)
    ensures StatusColor(s1) != FallbackColor
  {
  }
}
