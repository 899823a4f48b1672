/**
 * The older front end's UI state: the status line shown under the menu and
 * whether it is currently on display.
 */
module TuiUi {

  class UI {
    var updateMessage: string
    var showUpdateMessage: bool

    /** `UI::new`: the given message, not on display. */
    constructor (updateMessage: string)
      ensures this.updateMessage == updateMessage && !showUpdateMessage
    {
      this.updateMessage := updateMessage;
      showUpdateMessage := false;
    }

    /** Replaces the message and puts it on display; a second identical call changes nothing. */
    method SetUpdateMessage(message: string)
      modifies this
      ensures updateMessage == message && showUpdateMessage
    {
      updateMessage := message;
      showUpdateMessage := true;
    }

    /** Takes the message off display and keeps its text; a second call changes nothing. */
    method ClearUpdateMessage()
      modifies this
      ensures !showUpdateMessage && updateMessage == old(updateMessage)
    {
      showUpdateMessage := false;
    }
  }
}
