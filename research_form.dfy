/** The topic form `ResearchForm`: the raw topic, its validity flag, and the
    guard under which a submit reaches the parent. */
module TopicForm {
  import opened Wrappers
  import opened Text

  /** The longest accepted topic, after trimming. */
  const MaxTopicLength: nat := 500

  /** `validateTopic`: the trimmed topic has between 1 and 500 characters. */
  predicate ValidTopic(value: string) {
    0 < |Trim(value)| <= MaxTopicLength
  }

  /** Surrounding whitespace has no bearing on validity. */
  lemma {:induction false} ValidityIgnoresPadding(pad: string, value: string, pad2: string)
    requires IsBlank(pad) && IsBlank(pad2)
    ensures ValidTopic(pad + value + pad2) <==> ValidTopic(value)
  {
    TrimPadded(pad, value, pad2);
  }

  lemma {:induction false} TrimPadded(pad: string, value: string, pad2: string)
    requires IsBlank(pad) && IsBlank(pad2)
    ensures Trim(pad + value + pad2) == Trim(value)
  {
    var s := pad + value + pad2;
    assert s == pad + (value + pad2);
    TrimStartPadded(pad, value + pad2);
    TrimStartAppend(value, pad2);
    calc {
      Trim(s);
      TrimEnd(TrimStart(s));
      TrimEnd(TrimStart(value + pad2));
      TrimEnd(TrimStart(value));
      Trim(value);
    }
  }

  lemma {:induction false} TrimStartPadded(pad: string, s: string)
    requires IsBlank(pad)
    ensures TrimStart(pad + s) == TrimStart(s)
    decreases |pad|
  {
    if pad != [] {
      assert (pad + s)[1..] == pad[1..] + s;
      TrimStartPadded(pad[1..], s);
    } else {
      assert pad + s == s;
    }
  }

  lemma {:induction false} TrimEndPadded(s: string, pad: string)
    requires IsBlank(pad)
    ensures TrimEnd(s + pad) == TrimEnd(s)
    decreases |pad|
  {
    if pad != [] {
      var p' := pad[..|pad| - 1];
      assert (s + pad)[..|s + pad| - 1] == s + p';
      TrimEndPadded(s, p');
    } else {
      assert s + pad == s;
    }
  }

  /** Trimming the front of `value + pad` trims the front of `value` and
      keeps the padding, unless `value` is blank. */
  lemma {:induction false} TrimStartAppend(value: string, pad: string)
    requires IsBlank(pad)
    ensures TrimEnd(TrimStart(value + pad)) == TrimEnd(TrimStart(value))
    decreases |value|
  {
    if value == [] {
      assert value + pad == pad;
      TrimStartPadded(pad, []);
      assert pad + [] == pad;
    } else if IsSpace(value[0]) {
      assert (value + pad)[1..] == value[1..] + pad;
      TrimStartAppend(value[1..], pad);
    } else {
      TrimEndPadded(value, pad);
    }
  }

  class Form {
    var topic: string
    var isValid: bool

    /** The flag is the validity of the current topic, as every change
        recomputes it. */
    ghost predicate Valid()
      reads this
    {
      isValid == ValidTopic(topic)
    }

    /** The form starts with an empty topic, which is not valid. */
    constructor ()
      ensures Valid()
      ensures topic == "" && !isValid
    {
      topic := "";
      isValid := false;
    }

    /** `handleTopicChange`: stores the new text and revalidates it. */
    method HandleTopicChange(value: string) returns (valid: bool)
      modifies this
      ensures Valid()
      ensures topic == value && isValid == valid && valid == ValidTopic(value)
    {
      topic := value;
      valid := ValidateTopic(value);
    }

    /** `validateTopic`: sets the flag from the given text and returns it. */
    method ValidateTopic(value: string) returns (valid: bool)
      modifies this
      ensures valid == ValidTopic(value) && isValid == valid
      ensures topic == old(topic)
    {
      var trimmed := Trim(value);
      valid := |trimmed| > 0 && |trimmed| <= MaxTopicLength;
      isValid := valid;
    }

    /** `handleSubmit`: hands the trimmed topic to the parent when it is
        non-blank, valid, and neither loading nor disabled. */
    method HandleSubmit(isLoading: bool, disabled: bool) returns (submitted: Option<string>)
      requires Valid()
      ensures submitted.Some? <==> !SubmitDisabled(isLoading, disabled)
      ensures submitted.Some? ==> submitted.value == Trim(topic) && 0 < |submitted.value| <= MaxTopicLength
    {
      var trimmed := Trim(topic);
      if trimmed != "" && isValid && !isLoading && !disabled {
        submitted := Some(trimmed);
      } else {
        submitted := None;
      }
    }

    /** `isSubmitDisabled`. */
    predicate SubmitDisabled(isLoading: bool, disabled: bool)
      reads this
    {
      !isValid || isLoading || disabled || Trim(topic) == ""
    }

    /** The inline error hint: an invalid, non-empty raw topic. */
    predicate ShowsError()
      reads this
    {
      !isValid && topic != ""
    }

    /** The hint shows exactly for a topic that is blank but not empty, or
        longer than 500 characters once trimmed. */
    lemma ErrorHintCases()
      requires Valid()
      ensures ShowsError() <==> topic != "" && (IsBlank(topic) || |Trim(topic)| > MaxTopicLength)
    {
    }

    /** In a consistent form the button's condition reduces to validity and
        the two flags. */
    lemma SubmitDisabledWhenConsistent(isLoading: bool, disabled: bool)
      requires Valid()
      ensures SubmitDisabled(isLoading, disabled) <==> !ValidTopic(topic) || isLoading || disabled
    {
    }
  }
}
