/** The seed collection run through the search, the tabs and the wizard. */
module Scenarios {
  import opened Wrappers
  import opened Text
  import opened Types
  import opened Seqs
  import opened SearchBar
  import opened Vehicles
  import opened Seed
  import opened Register

  /** The "Pending" tab of the seed shows only the Honda Civic. */
  lemma PendingTabOfSeed()
    ensures StatusTab(MockVehicles(), "pending") == [Honda()]
  {
    TabIsStatusFilter(MockVehicles(), Pending);
    LowerPending();
    FilterFive(Tesla(), Bmw(), Toyota(), Honda(), Audi(), (v: Vehicle) => v.status == Pending);
  }

  /** A field without `c`, where `c` is not a lower-case letter, cannot
      include a needle holding `c` once lower-cased. */
  lemma Excludes(field: string, needle: string, k: int)
    requires 0 <= k < |needle| && !('a' <= needle[k] <= 'z') && needle[k] !in field
    ensures !Contains(ToLower(field), needle)
  {
    if Contains(ToLower(field), needle) {
      ContainsHasChar(ToLower(field), needle, k);
      LowerKeepsOthers(field, needle[k]);
    }
  }

  /** No field of `v` but the owner's name has a space, and the name has no "3". */
  lemma NoModel3(v: Vehicle)
    requires ' ' !in v.registrationNumber && ' ' !in v.make && ' ' !in v.model && ' ' !in v.vin
    requires '3' !in v.owner.firstName + " " + v.owner.lastName
    ensures !TextMatches(v, "model 3")
  {
    var q := "model 3";
    assert q[5] == ' ' && q[6] == '3';
    Excludes(v.registrationNumber, q, 5);
    Excludes(v.make, q, 5);
    Excludes(v.model, q, 5);
    Excludes(v.vin, q, 5);
    Excludes(v.owner.firstName + " " + v.owner.lastName, q, 6);
  }

  lemma LowerModel3()
    ensures ToLower("Model 3") == "model 3"
  {
    LowerIs("Model 3", "model 3");
  }

  lemma TeslaIsModel3()
    ensures TextMatches(Tesla(), "model 3")
  {
    LowerModel3();
    assert IsPrefix("model 3", ToLower(Tesla().model));
  }

  lemma TeslaSelected()
    ensures Selected(Tesla(), "Model 3", NoFilters)
  {
    LowerModel3();
    TeslaIsModel3();
  }

  lemma BmwIsNotModel3()
    ensures !TextMatches(Bmw(), "model 3")
  {
    NoModel3(Bmw());
  }

  lemma ToyotaIsNotModel3()
    ensures !TextMatches(Toyota(), "model 3")
  {
    NoModel3(Toyota());
  }

  lemma HondaIsNotModel3()
    ensures !TextMatches(Honda(), "model 3")
  {
    NoModel3(Honda());
  }

  lemma AudiIsNotModel3()
    ensures !TextMatches(Audi(), "model 3")
  {
    NoModel3(Audi());
  }

  lemma BmwNotSelected()
    ensures !Selected(Bmw(), "Model 3", NoFilters)
  {
    LowerModel3();
    BmwIsNotModel3();
  }

  lemma ToyotaNotSelected()
    ensures !Selected(Toyota(), "Model 3", NoFilters)
  {
    LowerModel3();
    ToyotaIsNotModel3();
  }

  lemma HondaNotSelected()
    ensures !Selected(Honda(), "Model 3", NoFilters)
  {
    LowerModel3();
    HondaIsNotModel3();
  }

  lemma AudiNotSelected()
    ensures !Selected(Audi(), "Model 3", NoFilters)
  {
    LowerModel3();
    AudiIsNotModel3();
  }

  /** An unsorted search of five records of which only the first is a hit
      returns that record alone. */
  lemma OnlyFirstHit(a: Vehicle, b: Vehicle, c: Vehicle, d: Vehicle, e: Vehicle, q: string, f: Filters)
    requires f.sortBy.None?
    requires Selected(a, q, f)
    requires !Selected(b, q, f) && !Selected(c, q, f) && !Selected(d, q, f) && !Selected(e, q, f)
    ensures Search([a, b, c, d, e], q, f) == [a]
  {
    var p := (v: Vehicle) => Selected(v, q, f);
    FilterFive(a, b, c, d, e, p);
    FilterPassesAreSelection([a, b, c, d, e], q, f);
  }

  /** Searching the seed for "Model 3" finds exactly the Tesla. */
  lemma Model3SearchOfSeed()
    ensures Search(MockVehicles(), "Model 3", NoFilters) == [Tesla()]
  {
    TeslaSelected();
    BmwNotSelected();
    ToyotaNotSelected();
    HondaNotSelected();
    AudiNotSelected();
    OnlyFirstHit(Tesla(), Bmw(), Toyota(), Honda(), Audi(), "Model 3", NoFilters);
  }

  /** A submitted registration appears on the directory's "pending" tab. */
  lemma SubmittedRecordOnPendingTab(s: Session, vehicleId: string, ownerId: string, today: string)
    ensures var vs := HandleSubmit(s, vehicleId, ownerId, today).vehicles;
            vs[|s.vehicles|] in StatusTab(vs, "pending")
  {
    LowerPending();
  }
}
