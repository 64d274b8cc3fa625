/** The "add database" dialog: a name box, a path box, Cancel and Confirm. Confirm is enabled
    only while both boxes hold text. */
module Popup {

  class AddDatabasePopup {
    var nameText: string
    var pathText: string
    var hasName: bool
    var hasPath: bool
    var confirmDisabled: bool
    var visible: bool

    /** The flags follow the box texts, and Confirm is enabled exactly when both are set. */
    predicate Valid()
      reads this
    {
      && hasName == (|nameText| > 0)
      && hasPath == (|pathText| > 0)
      && confirmDisabled == !(hasName && hasPath)
    }

    /** `_Ready`: hidden, both boxes empty, Confirm disabled. */
    constructor ()
      ensures Valid()
      ensures !visible && confirmDisabled && nameText == "" && pathText == ""
    {
      nameText, pathText := "", "";
      hasName, hasPath := false, false;
      confirmDisabled := true;
      visible := false;
    }

    /** The name box now holds `name`. */
    method OnNameChanged(name: string)
      modifies this
      ensures nameText == name && hasName == (|name| > 0)
      ensures pathText == old(pathText) && hasPath == old(hasPath) && visible == old(visible)
      ensures confirmDisabled == !(hasName && hasPath)
      ensures old(Valid()) ==> Valid()
    {
      nameText := name;
      hasName := |name| > 0;
      VerifyData();
    }

    /** The path box now holds `path`. */
    method OnPathChanged(path: string)
      modifies this
      ensures pathText == path && hasPath == (|path| > 0)
      ensures nameText == old(nameText) && hasName == old(hasName) && visible == old(visible)
      ensures confirmDisabled == !(hasName && hasPath)
      ensures old(Valid()) ==> Valid()
    {
      pathText := path;
      hasPath := |path| > 0;
      VerifyData();
    }

    method VerifyData()
      modifies this
      ensures confirmDisabled == !(hasName && hasPath)
      ensures nameText == old(nameText) && pathText == old(pathText)
      ensures hasName == old(hasName) && hasPath == old(hasPath) && visible == old(visible)
    {
      if hasName && hasPath {
        confirmDisabled := false;
      } else {
        confirmDisabled := true;
      }
    }

    /** Shows the dialog (the parent's mouse filter is presentation and is not modelled). */
    method Popup()
      modifies this
      ensures visible
      ensures nameText == old(nameText) && pathText == old(pathText)
      ensures hasName == old(hasName) && hasPath == old(hasPath) && confirmDisabled == old(confirmDisabled)
    {
      visible := true;
    }

    /** Confirm: hands the two texts to the listener, once, then closes. */
    method OnConfirm() returns (name: string, path: string)
      modifies this
      ensures name == old(nameText) && path == old(pathText)
      ensures Valid() && !visible && nameText == "" && pathText == "" && confirmDisabled
    {
      name, path := nameText, pathText;
      Close();
    }

    /** Cancel: closes without handing anything on. */
    method OnCancel()
      modifies this
      ensures Valid() && !visible && nameText == "" && pathText == "" && confirmDisabled
    {
      Close();
    }

    /** Empties both boxes and hides the dialog. Clearing a line edit raises its TextChanged
        signal, so the two handlers run with empty text and Confirm is disabled again. */
    method Close()
      modifies this
      ensures Valid() && !visible && nameText == "" && pathText == "" && confirmDisabled
    {
      OnNameChanged("");
      OnPathChanged("");
      visible := false;
    }
  }
}
