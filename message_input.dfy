/** The message composer (`MessageInput`): a text cell and an "image" checkbox cell, a submit
    handler that sends the trimmed text and resets both cells, and the rule that enables the
    send button. The `onSend` callback is recorded as a log of the options it received. */
module MessageInput {
  import Text

  /** What `onSend` receives. */
  datatype SendOptions = SendOptions(content: string, image: bool)

  /** The checkbox's `checked` value: a boolean or "indeterminate". */
  datatype CheckedState = Checked(b: bool) | Indeterminate

  /** `!!checked`: every value but `false` is truthy. */
  function Truthy(checked: CheckedState): (r: bool)
    ensures r <==> checked != Checked(false)
  {
    match checked
    case Checked(b) => b
    case Indeterminate => true
  }

  /** `disabled || !value.trim()` negated: the send button is enabled. */
  predicate SendEnabled(disabled: bool, value: string) {
    !disabled && Text.JsTrim(value) != ""
  }

  /** A value can be sent exactly when it holds a character that is not white space. */
  lemma SendEnabledIff(disabled: bool, value: string)
    ensures SendEnabled(disabled, value) <==>
              !disabled && exists k :: 0 <= k < |value| && value[k] !in Text.JsWhitespace
  {
    Text.TrimEmptyIff(value, Text.JsWhitespace);
  }

  class Composer {
    var value: string
    var isImage: bool
    /** Every call of `onSend`, in order. */
    var sent: seq<SendOptions>

    /** The initial state: empty text, checkbox off, nothing sent. */
    constructor ()
      ensures value == "" && !isImage && sent == []
    {
      value := "";
      isImage := false;
      sent := [];
    }

    /** The input's `onChange`. */
    method Type(text: string)
      modifies this
      ensures value == text && isImage == old(isImage) && sent == old(sent)
    {
      value := text;
    }

    /** The checkbox's `onCheckedChange`. */
    method Check(checked: CheckedState)
      modifies this
      ensures isImage == Truthy(checked) && value == old(value) && sent == old(sent)
    {
      isImage := Truthy(checked);
    }

    /** `handleSubmit`: a blank value changes nothing; otherwise the trimmed text and the
        checkbox go to `onSend` once, and both cells are reset. */
    method HandleSubmit()
      modifies this
      ensures Text.JsTrim(old(value)) == "" ==>
                value == old(value) && isImage == old(isImage) && sent == old(sent)
      ensures Text.JsTrim(old(value)) != "" ==>
                sent == old(sent) + [SendOptions(Text.JsTrim(old(value)), old(isImage))]
                && value == "" && !isImage
    {
      var trimmed := Text.JsTrim(value);
      if trimmed == "" {
        return;
      }
      sent := sent + [SendOptions(trimmed, isImage)];
      value := "";
      isImage := false;
    }
  }

  /** Typing, ticking and submitting: a text that is not blank goes out trimmed with the
      box's state and leaves the composer as it started, with the send button disabled; a
      blank text sends nothing and stays in the input. */
  method TypeTickSubmit(c: Composer, text: string, checked: CheckedState)
    modifies c
    ensures Text.JsTrim(text) != "" ==>
              c.sent == old(c.sent) + [SendOptions(Text.JsTrim(text), Truthy(checked))]
              && c.value == "" && !c.isImage && !SendEnabled(false, c.value)
    ensures Text.JsTrim(text) == "" ==>
              c.sent == old(c.sent) && c.value == text && c.isImage == Truthy(checked)
  {
    c.Type(text);
    c.Check(checked);
    c.HandleSubmit();
    assert Text.JsTrim("") == "";
  }
}
