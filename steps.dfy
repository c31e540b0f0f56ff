/** A checklist step of the onboarding message: one attachment of the message,
    held as a heap object because the bot marks it complete in place and the same
    object is shared between the cached message, the template and the message sent. */
module Steps {

  /** What a completed step's title gets appended. */
  const CheckMark: string := " :white_check_mark:"

  /** The colour a completed step is given. */
  const DoneColor: string := "#2ab27b"

  /** The contents of a step at one moment. */
  datatype StepValue = StepValue(title: string, color: string, completed: bool, event: string)

  /** A step as marked complete: suffix on the title, the done colour, the flag set.
      The suffix is appended every time, whether or not the step was complete already. */
  function Mark(v: StepValue): StepValue
  {
    v.(title := v.title + CheckMark, color := DoneColor, completed := true)
  }

  class Step {
    var title: string
    var color: string
    var completed: bool
    var event: string

    constructor (title: string, color: string, completed: bool, event: string)
      ensures Value() == StepValue(title, color, completed, event)
    {
      this.title := title;
      this.color := color;
      this.completed := completed;
      this.event := event;
    }

    /** The step's current contents. */
    function Value(): StepValue
      reads this
    {
      StepValue(title, color, completed, event)
    }

    /** Marks this step complete in place; the event tag is left alone. */
    method Complete()
      modifies this
      ensures Value() == Mark(old(Value()))
    {
      title := title + CheckMark;
      color := DoneColor;
      completed := true;
    }
  }
}
