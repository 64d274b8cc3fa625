/** One tile of the selection grid: shows a resource's display name and type, and keeps
    the name in step with edits made to the resource in the editor's inspector. */
module ItemButtons {
  import opened Text
  import opened Resources
  import opened Optional

  /** The name a tile shows for a resource loaded from `fileName`: its `Name` property if
      that is a non-empty string, else its `Id` property if that is, else the file name. */
  function DisplayName(props: map<string, Variant>, fileName: string): (r: string)
    ensures HasValue(Get(props, "Name")) ==> r == Get(props, "Name").s
    ensures !HasValue(Get(props, "Name")) && HasValue(Get(props, "Id")) ==> r == Get(props, "Id").s
    ensures !HasValue(Get(props, "Name")) && !HasValue(Get(props, "Id")) ==> r == fileName
    ensures |fileName| > 0 ==> |r| > 0
  {
    var nameVariant := Get(props, "Name");
    var idVariant := Get(props, "Id");
    if HasValue(nameVariant) then nameVariant.s
    else if HasValue(idVariant) then idVariant.s
    else fileName
  }

  /** The new display name after the inspector reports an edit of `property`, or None
      when that edit leaves the tile's name alone. An edit is taken into account only
      when it can change which rule of DisplayName applies or what it yields: an edit
      of "Name", or of "Id" while the name property is empty. */
  function EditedName(props: map<string, Variant>, fileName: string, property: string): (r: Option<string>)
    ensures r.Some? ==> r.value == DisplayName(props, fileName)
    ensures EqualsIgnoreCase(property, "Name") ==> r == Some(DisplayName(props, fileName))
    ensures EqualsIgnoreCase(property, "Id") ==> (r.Some? <==> !HasValue(Get(props, "Name")))
    ensures !EqualsIgnoreCase(property, "Name") && !EqualsIgnoreCase(property, "Id") ==> r == None
  {
    var isNameProperty := EqualsIgnoreCase(property, "Name");
    var isIdProperty := EqualsIgnoreCase(property, "Id");
    var nameVariant := Get(props, "Name");
    var idVariant := Get(props, "Id");
    if HasValue(nameVariant) then
      if isNameProperty then Some(nameVariant.s) else None
    else if HasValue(idVariant) then
      if isNameProperty || isIdProperty then Some(idVariant.s) else None
    else
      if isNameProperty || isIdProperty then Some(fileName) else None
  }

  /** "Name" and "Id" are different properties even when case is ignored, so the
      three-way choice in EditedName never sees both flags set. */
  lemma NameAndIdAreDistinctProperties(property: string)
    ensures !(EqualsIgnoreCase(property, "Name") && EqualsIgnoreCase(property, "Id"))
  {
    if EqualsIgnoreCase(property, "Name") {
      assert |Fold(property)| == 4;
    }
  }

  class DatabaseItemButton {
    var isReady: bool
    var pressed: bool
    var visible: bool
    var resource: Resource?
    var fileName: string
    var name: string
    var typeName: string
    var nameLabel: string
    var typeLabel: string

    /** The tile shows `res`, loaded from `fn`, as Set leaves it. */
    predicate Shows(res: Resource, fn: string)
      reads this, res
    {
      && resource == res
      && fileName == fn
      && name == DisplayName(res.props, fn)
      && nameLabel == name
      && typeName == res.typeName
      && typeLabel == "Type: " + typeName
    }

    /** A freshly instantiated tile: not yet in the scene tree, unpressed, visible. */
    constructor ()
      ensures !isReady && !pressed && visible && resource == null
      ensures fileName == "" && name == "" && typeName == ""
    {
      isReady, pressed, visible, resource := false, false, true, null;
      fileName, name, typeName, nameLabel, typeLabel := "", "", "", "", "";
    }

    /** `_Ready`: the tile has entered the scene tree; label and signal wiring is not modelled. */
    method Ready()
      modifies this
      ensures isReady
      ensures pressed == old(pressed) && visible == old(visible) && resource == old(resource)
      ensures fileName == old(fileName) && name == old(name) && typeName == old(typeName)
      ensures nameLabel == old(nameLabel) && typeLabel == old(typeLabel)
    {
      isReady := true;
    }

    /** Binds the tile to a resource. Before `_Ready` has run it does nothing. */
    method Set(res: Resource, fileName: string)
      modifies this
      ensures !old(isReady) ==> unchanged(this)
      ensures old(isReady) ==> Shows(res, fileName)
      ensures isReady == old(isReady) && pressed == old(pressed) && visible == old(visible)
    {
      if !isReady {
        return;
      }
      resource := res;
      SetResName(res, fileName);
      SetResType(res);
    }

    method SetResName(res: Resource, fileName: string)
      modifies this
      ensures name == DisplayName(res.props, fileName) && nameLabel == name
      ensures this.fileName == fileName
      ensures isReady == old(isReady) && pressed == old(pressed) && visible == old(visible)
      ensures resource == old(resource) && typeName == old(typeName) && typeLabel == old(typeLabel)
    {
      name := DisplayName(res.props, fileName);
      nameLabel := name;
      this.fileName := fileName;
    }

    method SetResType(res: Resource)
      modifies this
      ensures typeName == res.typeName && typeLabel == "Type: " + res.typeName
      ensures isReady == old(isReady) && pressed == old(pressed) && visible == old(visible)
      ensures resource == old(resource) && fileName == old(fileName)
      ensures name == old(name) && nameLabel == old(nameLabel)
    {
      typeName := res.typeName;
      typeLabel := "Type: " + typeName;
    }

    /** The inspector switched to `inspected`. A pressed tile whose resource is no longer
        the inspected object becomes unpressed. With nothing inspected, the comparison
        throws (a null receiver) and the handler ends without effect. */
    method OnEditorObjectChanged(inspected: object?)
      modifies this
      ensures pressed == (old(pressed) && (inspected == null || inspected == resource))
      ensures !old(pressed) ==> unchanged(this)
      ensures isReady == old(isReady) && visible == old(visible) && resource == old(resource)
      ensures fileName == old(fileName) && name == old(name) && typeName == old(typeName)
      ensures nameLabel == old(nameLabel) && typeLabel == old(typeLabel)
    {
      if !pressed || inspected == null || inspected == resource {
        return;
      }
      SetPressed(false);
    }

    /** The inspector reports that `property` of `inspected` was edited. Only a pressed
        tile whose own resource is being inspected reacts, and it re-derives its name
        as EditedName says. */
    method OnEditorPropertyEdited(inspected: object?, property: string)
      modifies this
      ensures !(old(pressed) && inspected != null && inspected == resource) ==> unchanged(this)
      ensures old(pressed) && inspected != null && inspected == resource ==>
        var edit := EditedName(resource.props, fileName, property);
        && (edit.Some? ==> name == edit.value && nameLabel == edit.value)
        && (edit.None? ==> name == old(name) && nameLabel == old(nameLabel))
      ensures isReady == old(isReady) && pressed == old(pressed) && visible == old(visible)
      ensures resource == old(resource) && fileName == old(fileName)
      ensures typeName == old(typeName) && typeLabel == old(typeLabel)
    {
      if !pressed || inspected == null || inspected != resource {
        return;
      }
      var edit := EditedName(resource.props, fileName, property);
      if edit.Some? {
        name := edit.value;
        nameLabel := name;
      }
    }

    /** `SetPressed`: the user toggles the tile (inspecting its resource is the editor's business). */
    method SetPressed(on: bool)
      modifies this
      ensures pressed == on
      ensures isReady == old(isReady) && visible == old(visible) && resource == old(resource)
      ensures fileName == old(fileName) && name == old(name) && typeName == old(typeName)
      ensures nameLabel == old(nameLabel) && typeLabel == old(typeLabel)
    {
      pressed := on;
    }
  }
}
