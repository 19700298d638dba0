/** The device behind the services: the values of its model, and which writes fit the types behind
    them. */
module Device {
  import opened Data

  /** The values after a write: made when it fits, dropped when it does not. */
  function Stored(accepts: (string, Value) -> bool, values: map<string, Value>, reference: string,
                  v: Value): map<string, Value> {
    if accepts(reference, v) then values[reference := v] else values
  }

  class Ied {
    const accepts: (string, Value) -> bool
    var values: map<string, Value>

    constructor (accepts: (string, Value) -> bool, values: map<string, Value>)
      ensures this.accepts == accepts && this.values == values
    {
      this.accepts, this.values := accepts, values;
    }

    method Write(reference: string, v: Value)
      modifies this
      ensures values == Stored(accepts, old(values), reference, v)
    {
      if accepts(reference, v) {
        values := values[reference := v];
      }
    }
  }
}
