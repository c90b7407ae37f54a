/**
 The dictionaries that flow between the trackers, the quarantine and the
 scorers, as typed records.
 */
module Records {
  import opened Wrappers

  /**
   One key of a dictionary: absent, or present and bound to a value, where
   the value may itself be None.
   */
  datatype Field = Absent | Present(value: Option<real>)

  /** The `params` dictionary of a builtin density. */
  datatype Params = Params(loc: Field, mu: Field, scale: Field, sigma: Field)

  /** One entry of a mixture's `components` list: `{"density": {"params": ...}, "weight": w}`. */
  datatype Component = Component(params: Params, weight: real)

  /**
   A prediction dictionary: `{"type": "mixture", "components": [...]}`, or a
   single density `{"type": ..., "params": {...}}`.
   */
  datatype Density = Mixture(components: seq<Component>) | Builtin(params: Params)

  /** An observation: the `time` and `dove_location` fields of a payload dictionary. */
  datatype Payload = Payload(time: real, doveLocation: real)

  /** The params of a normal density as the trackers emit them: `{"loc": loc, "scale": scale}`. */
  function NormalParams(loc: Option<real>, scale: real): Params {
    Params(Present(loc), Absent, Present(Some(scale)), Absent)
  }

  function Weights(cs: seq<Component>): (ws: seq<real>)
    ensures |ws| == |cs|
    ensures forall i :: 0 <= i < |cs| ==> ws[i] == cs[i].weight
  {
    seq(|cs|, i requires 0 <= i < |cs| => cs[i].weight)
  }
}
