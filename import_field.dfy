/** `Import::Field`: one expected target column of an import, with its key,
    its display label, whether it is optional, and one replaceable
    validator and one replaceable preprocessor. */
module ImportField {
  import opened Common

  /** `Import::Field.bigdecimal_preprocessor`: every `,` becomes `.`, so
      that a decimal comma reads as a decimal point. */
  function BigDecimalPreprocessor(value: string): (r: string)
    ensures |r| == |value|
    ensures forall i :: 0 <= i < |value| ==> r[i] == (if value[i] == ',' then '.' else value[i])
  {
    if value == [] then []
    else [if value[0] == ',' then '.' else value[0]] + BigDecimalPreprocessor(value[1..])
  }

  /** The preprocessor leaves no comma behind. */
  lemma BigDecimalPreprocessorNoComma(value: string)
    ensures ',' !in BigDecimalPreprocessor(value)
  {
    var r := BigDecimalPreprocessor(value);
    forall i | 0 <= i < |r| ensures r[i] != ',' {
    }
  }

  /** Running the preprocessor on its own output changes nothing. */
  lemma BigDecimalPreprocessorIdempotent(value: string)
    ensures BigDecimalPreprocessor(BigDecimalPreprocessor(value)) == BigDecimalPreprocessor(value)
  {
    var r := BigDecimalPreprocessor(value);
    BigDecimalPreprocessorNoComma(value);
    var rr := BigDecimalPreprocessor(r);
    forall i | 0 <= i < |r| ensures rr[i] == r[i] {
      assert r[i] in r;
    }
  }

  class Field {
    const key: string
    const displayLabel: string
    const isOptional: bool
    /** `nil` in the source when no validator has been given. */
    var validator: Option<string -> bool>
    /** `nil` in the source when no preprocessor has been given. */
    var preprocessor: Option<string -> string>

    /** `Import::Field.new(key:, label:, is_optional: false, validator: nil,
        preprocessor: nil)`. */
    constructor (key: string, displayLabel: string, isOptional: bool := false,
                 validator: Option<string -> bool> := None, preprocessor: Option<string -> string> := None)
      ensures this.key == key && this.displayLabel == displayLabel
      ensures Optional() == isOptional
      ensures this.validator == validator && this.preprocessor == preprocessor
    {
      this.key := key;
      this.displayLabel := displayLabel;
      this.isOptional := isOptional;
      this.validator := validator;
      this.preprocessor := preprocessor;
    }

    /** `optional?`: the flag given at construction. */
    function Optional(): bool {
      isOptional
    }

    /** `define_validator`: the new validator replaces the old one outright. */
    method DefineValidator(v: string -> bool)
      modifies this`validator
      ensures validator == Some(v)
      ensures preprocessor == old(preprocessor)
    {
      validator := Some(v);
    }

    /** `define_preprocessor`: the new preprocessor replaces the old one outright. */
    method DefinePreprocessor(p: string -> string)
      modifies this`preprocessor
      ensures preprocessor == Some(p)
      ensures validator == old(validator)
    {
      preprocessor := Some(p);
    }

    /** `validate`: a field without a validator accepts every value without
        consulting its preprocessor; otherwise the validator judges the
        preprocessed value, or the value itself when there is no
        preprocessor. */
    function Validate(value: string): (r: bool)
      reads this
      ensures validator.None? ==> r
      ensures validator.Some? && preprocessor.None? ==> r == validator.value(value)
      ensures validator.Some? && preprocessor.Some? ==> r == validator.value(preprocessor.value(value))
    {
      match validator
      case None => true
      case Some(v) =>
        var x := if preprocessor.Some? then preprocessor.value(value) else value;
        v(x)
    }
  }
}
