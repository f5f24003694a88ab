/** The price table that `record_usage` and `subaccounts` share, in tenths of a small instance. */
module InstanceTypes {
  import opened Common

  datatype Kind =
    | M1Small | M1Large | M1XLarge | T1Micro | M2XLarge | M22XLarge | M24XLarge | C1Medium | C1XLarge | CC14XLarge
    | OtherKind(name: string)

  /** `INSTANCE_COST`; an instance type outside the table raises KeyError. */
  function CostTenths(kind: Kind): Option<nat> {
    match kind
    case M1Small => Some(10)
    case M1Large => Some(40)
    case M1XLarge => Some(80)
    case T1Micro => Some(2)
    case M2XLarge => Some(59)
    case M22XLarge => Some(118)
    case M24XLarge => Some(236)
    case C1Medium => Some(20)
    case C1XLarge => Some(80)
    case CC14XLarge => Some(188)
    case OtherKind(_) => None
  }
}
