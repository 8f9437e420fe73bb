/** Catalogue rows (plans, prices, add-ons) and the values their entitlements carry. */
module Catalog {
  import opened Prelude
  import opened Text

  type CustomerId = nat

  /** What an entitlement property can return. */
  datatype Value = Null | Bool(b: bool) | Int(i: int) | Str(s: string)

  predicate Truthy(v: Value) {
    match v
    case Null => false
    case Bool(b) => b
    case Int(i) => i != 0
    case Str(s) => s != ""
  }

  /** `int(v)` of a value that is not None; None stands for the ValueError of a text that is no number. */
  function ToInt(v: Value): Option<int> {
    match v
    case Null => None
    case Bool(b) => Some(if b then 1 else 0)
    case Int(i) => Some(i)
    case Str(s) => ParseInt(s)
  }

  datatype ValueType = BooleanType | IntegerType | StringType

  /** One entitlement row of a plan, of a subscription or of an add-on. */
  datatype Entitlement = Entitlement(
    key: string, valueType: ValueType, boolValue: bool, intValue: Option<int>, strValue: string
  ) {
    function Value(): Value {
      match valueType
      case IntegerType => if intValue.Some? then Int(intValue.value) else Null
      case StringType => Str(strValue)
      case BooleanType => Bool(boolValue)
    }
  }

  datatype Plan = Plan(code: string, project: Option<string>, entitlements: seq<Entitlement>)

  datatype Price = Price(code: string, plan: Plan, amountCents: nat)

  datatype AddOnItem = AddOnItem(row: Entitlement, isIncremental: bool)

  datatype AddOn = AddOn(code: string, project: Option<string>, items: seq<AddOnItem>)
}
