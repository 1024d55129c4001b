/** The externally owned discrete parameter the drop menu edits: an integer
    value in [0, range), an optional list of option labels and the set of
    objects subscribed to its change notifications. Only what the menu relies
    on is specified; how an out-of-range write is wrapped or clamped is the
    parameter's own policy and is left open by the contracts below. Each
    mutator reports whether the value changed: that is exactly when the
    parameter notifies its listeners. */
module Parameters {

  datatype Option<T> = None | Some(value: T)

  class DiscreteParameter {
    var value: int
    var range: int
    var options: Option<seq<string>>
    var listeners: set<object>

    ghost predicate Valid()
      reads this
    {
      0 < range && 0 <= value < range
    }

    constructor (range0: int, value0: int, options0: Option<seq<string>>)
      requires 0 <= value0 < range0
      ensures Valid()
      ensures range == range0 && value == value0 && options == options0
      ensures listeners == {}
    {
      range, value, options, listeners := range0, value0, options0, {};
    }

    /** Writes `v`; a value already in range is stored as it is. */
    method SetValue(v: int) returns (changed: bool)
      requires Valid()
      modifies this`value
      ensures Valid()
      ensures 0 <= v < range ==> value == v
      ensures changed <==> value != old(value)
    {
      var before := value;
      value := if v < 0 then 0 else if v >= range then range - 1 else v;
      changed := value != before;
    }

    /** Steps the value up by one; away from the top end that is `value + 1`. */
    method Increment() returns (changed: bool)
      requires Valid()
      modifies this`value
      ensures Valid()
      ensures old(value) + 1 < range ==> value == old(value) + 1
      ensures changed <==> value != old(value)
    {
      changed := value + 1 < range;
      if changed {
        value := value + 1;
      }
    }

    /** Steps the value down by one; away from the bottom end that is `value - 1`. */
    method Decrement() returns (changed: bool)
      requires Valid()
      modifies this`value
      ensures Valid()
      ensures 0 < old(value) ==> value == old(value) - 1
      ensures changed <==> value != old(value)
    {
      changed := 0 < value;
      if changed {
        value := value - 1;
      }
    }

    method AddListener(l: object)
      modifies this`listeners
      ensures listeners == old(listeners) + {l}
    {
      listeners := listeners + {l};
    }

    method RemoveListener(l: object)
      modifies this`listeners
      ensures listeners == old(listeners) - {l}
    {
      listeners := listeners - {l};
    }
  }
}
