// Flavors and statement modifiers (internal/tengo/flavor.go, internal/tengo/diff.go).

module Modifiers {

  datatype Vendor = VendorUnknown | VendorMySQL | VendorMariaDB

  datatype Flavor = Flavor(vendor: Vendor, major: nat, minor: nat, patch: nat) {
    predicate Min(other: Flavor) {
      && vendor == other.vendor
      && (major > other.major
          || (major == other.major && (minor > other.minor || (minor == other.minor && patch >= other.patch))))
    }

    predicate IsMariaDB() {
      vendor == VendorMariaDB
    }

    /** ALTER INDEX ... INVISIBLE / IGNORED exists in MySQL 8.0+ and MariaDB 10.6+. */
    predicate CanHideIndexes() {
      Min(Flavor(VendorMySQL, 8, 0, 0)) || Min(Flavor(VendorMariaDB, 10, 6, 0))
    }
  }

  datatype NextAutoIncMode = Ignore | IfIncreased | IfAlready | Always

  datatype PartitioningMode = Permissive | Remove | Keep

  /** LOCK, ALGORITHM and WITH VALIDATION only add text to a statement and are not modelled. */
  datatype StatementModifiers = StatementModifiers(
    nextAutoInc: NextAutoIncMode, partitioning: PartitioningMode, allowUnsafe: bool,
    strictIndexOrder: bool, strictCheckOrder: bool, strictForeignKeyNaming: bool, strictColumnDefinition: bool,
    compareMetadata: bool, skipPreDropAlters: bool, flavor: Flavor)
}
