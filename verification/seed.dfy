/** `mockVehicles`: the five records the directory starts with. */
module Seed {
  import opened Types
  import opened Wrappers
  import opened Dates

  function Tesla(): (r: Vehicle) {
    Vehicle("1", "ABC-1234", "Tesla", "Model 3", 2023, "Midnight Silver", "5YJ3E1EA1JF006789",
      Sedan, Active, "2023-06-15",
      Owner("101", "John", "Doe", "john.doe@example.com", "555-123-4567",
        Address("123 Main St", "San Francisco", "CA", "94105", "USA"), "DL123456789"))
  }

  function Bmw(): (r: Vehicle) {
    Vehicle("2", "XYZ-9876", "BMW", "X5", 2022, "Alpine White", "WBAJA5C55KEX39023",
      SUV, Active, "2022-11-08",
      Owner("102", "Jane", "Smith", "jane.smith@example.com", "555-987-6543",
        Address("456 Park Ave", "New York", "NY", "10022", "USA"), "DL987654321"))
  }

  function Toyota(): (r: Vehicle) {
    Vehicle("3", "DEF-5678", "Toyota", "Camry", 2021, "Celestial Silver", "4T1BF1FK5MU123456",
      Sedan, Active, "2021-03-22",
      Owner("103", "Robert", "Johnson", "robert.johnson@example.com", "555-456-7890",
        Address("789 Oak Dr", "Chicago", "IL", "60601", "USA"), "DL456789012"))
  }

  function Honda(): (r: Vehicle) {
    Vehicle("4", "GHI-9012", "Honda", "Civic", 2023, "Cosmic Blue", "2HGFC2F70PH123456",
      Sedan, Pending, "2023-09-10",
      Owner("104", "Emily", "Brown", "emily.brown@example.com", "555-789-0123",
        Address("101 Pine St", "Seattle", "WA", "98101", "USA"), "DL789012345"))
  }

  function Audi(): (r: Vehicle) {
    Vehicle("5", "JKL-3456", "Audi", "Q7", 2022, "Daytona Gray", "WA1VAAF77LD123456",
      SUV, Expired, "2022-01-30",
      Owner("105", "Michael", "Williams", "michael.williams@example.com", "555-234-5678",
        Address("222 Maple Ave", "Austin", "TX", "78701", "USA"), "DL234567890"))
  }

  function MockVehicles(): (r: seq<Vehicle>) {
    [Tesla(), Bmw(), Toyota(), Honda(), Audi()]
  }

  /** Five records with the ids "1" to "5", pairwise distinct. */
  lemma SeedIds()
    ensures |MockVehicles()| == 5
    ensures forall i :: 0 <= i < 5 ==> MockVehicles()[i].id == ["1", "2", "3", "4", "5"][i]
    ensures forall i, j :: 0 <= i < j < |MockVehicles()| ==> MockVehicles()[i].id != MockVehicles()[j].id
  {
  }

  /** One Pending record (the Honda Civic), one Expired (the Audi Q7), three Active. */
  lemma SeedStatuses()
    ensures forall i :: 0 <= i < 5 ==> (MockVehicles()[i].status == Pending <==> i == 3)
    ensures forall i :: 0 <= i < 5 ==> (MockVehicles()[i].status == Expired <==> i == 4)
    ensures forall i :: 0 <= i < 5 ==> (MockVehicles()[i].status == Active <==> i < 3)
    ensures MockVehicles()[3].make == "Honda" && MockVehicles()[3].model == "Civic"
    ensures MockVehicles()[4].make == "Audi" && MockVehicles()[4].model == "Q7"
  {
  }

  lemma TeslaDate()
    ensures Tesla().registrationDate == "2023-06-15"
    ensures IsCalendarDate(Tesla().registrationDate)
    ensures ParseIsoDate(Tesla().registrationDate) == Some(CalendarDate(2023, 6, 15))
  {
    ReadDate("2023-06-15", CalendarDate(2023, 6, 15));
  }

  lemma BmwDate()
    ensures Bmw().registrationDate == "2022-11-08"
    ensures IsCalendarDate(Bmw().registrationDate)
    ensures ParseIsoDate(Bmw().registrationDate) == Some(CalendarDate(2022, 11, 8))
  {
    ReadDate("2022-11-08", CalendarDate(2022, 11, 8));
  }

  lemma ToyotaDate()
    ensures Toyota().registrationDate == "2021-03-22"
    ensures IsCalendarDate(Toyota().registrationDate)
    ensures ParseIsoDate(Toyota().registrationDate) == Some(CalendarDate(2021, 3, 22))
  {
    ReadDate("2021-03-22", CalendarDate(2021, 3, 22));
  }

  lemma HondaDate()
    ensures Honda().registrationDate == "2023-09-10"
    ensures IsCalendarDate(Honda().registrationDate)
    ensures ParseIsoDate(Honda().registrationDate) == Some(CalendarDate(2023, 9, 10))
  {
    ReadDate("2023-09-10", CalendarDate(2023, 9, 10));
  }

  lemma AudiDate()
    ensures Audi().registrationDate == "2022-01-30"
    ensures IsCalendarDate(Audi().registrationDate)
    ensures ParseIsoDate(Audi().registrationDate) == Some(CalendarDate(2022, 1, 30))
  {
    ReadDate("2022-01-30", CalendarDate(2022, 1, 30));
  }

  /** Every seed registration date names an existing calendar date. */
  lemma SeedDatesIso()
    ensures forall i :: 0 <= i < |MockVehicles()| ==> IsCalendarDate(MockVehicles()[i].registrationDate)
  {
    TeslaDate();
    BmwDate();
    ToyotaDate();
    HondaDate();
    AudiDate();
  }
}
