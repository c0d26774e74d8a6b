// The aggregations a group can be asked for.
module Aggregates {
  datatype AggOp = Sum | Avg | Count | Min | Max | Other(name: string)

  // One aggregation: op applied to field, exposed under the column name given by as_.
  datatype Agg = Agg(field: string, op: AggOp, as_: string) {

    function OutName(): string {
      if as_ != "" then as_ else OpName(op) + "_" + field
    }
  }

  function OpName(op: AggOp): string {
    match op
    case Sum => "sum"
    case Avg => "avg"
    case Count => "count"
    case Min => "min"
    case Max => "max"
    case Other(name) => name
  }
}
