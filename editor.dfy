/** The editor object of src/editor.rs. Its `Update` changes the fields in
    place, arm by arm as the source does, and is proved to move the editor from
    one state of the `EditorSpec` machine to the next. */
module Editor {
  import opened Wrappers
  import opened Config
  import opened ZoneInfo
  import opened Entries
  import opened EditorSpec

  class Editor {
    /** The zones the system database can load, fixed for the session. */
    const zones: ZoneDb

    var textInputBuf: string
    var tzInputBuf: Option<string>
    /** How many widget-id pairs the editor holds; the ids themselves are UI. */
    var textInputIds: nat
    var editingItem: Option<EditingItem>
    var tzs: seq<MaybeTz>
    /** Every configuration written to the store, oldest first. */
    ghost var configWrites: seq<seq<Tz>>

    ghost function Model(): State
      reads this
    {
      State(textInputBuf, tzInputBuf, textInputIds, editingItem, tzs, configWrites)
    }

    /** Only resolved entries are `Ok`, and only resolved zones were written. */
    ghost predicate Valid()
      reads this
    {
      Invariant(zones, Model())
    }

    /** `Editor::new`, given what the store returned (`None` when it held no
        readable configuration). */
    constructor (zones: ZoneDb, stored: Option<WorldClocksConfig>)
      ensures this.zones == zones
      ensures Model() == Init(zones, stored)
      ensures Valid()
    {
      this.zones := zones;
      var initialConfig := if stored.Some? then stored.value else DefaultConfig;
      var validated := ValidateAll(zones, initialConfig.timezones);
      editingItem := None;
      tzs := validated;
      textInputIds := |validated|;
      textInputBuf := "";
      tzInputBuf := None;
      configWrites := [];
      new;
      InitEstablishesInvariant(zones, stored);
    }

    /** `Editor::update`. */
    method Update(msg: Message)
      requires Valid() && Defined(Model(), msg)
      modifies this
      ensures Model() == EditorSpec.Update(zones, old(Model()), msg)
      ensures Valid()
    {
      UpdateKeepsInvariant(zones, Model(), msg);
      match msg {
        case EditList(el) =>
          match el {
            case Reorder(dir, i) =>
              var j: nat;
              match dir {
                case Up =>
                  if i <= 0 {
                    return;
                  }
                  j := i - 1;
                case Down =>
                  if |tzs| - 1 <= i {
                    return;
                  }
                  j := i + 1;
              }
              var moved := tzs[i];
              tzs := tzs[i := tzs[j]];
              tzs := tzs[j := moved];
            case AddAtEnd =>
              var newTz := Err(Tz("Middle_Earth/Mordor", "Mordor"), "please choose a timezone");
              tzs := tzs + [newTz];
              textInputIds := textInputIds + 1;
            case Remove(i) =>
              tzs := tzs[..i] + tzs[i + 1..];
              if textInputIds > 0 {
                textInputIds := textInputIds - 1;
              }
            case NewConfig(c) =>
              tzs := ValidateAll(zones, c.timezones);
          }
          MaybeUpdateConfig();
        case EditItem(i, ei) =>
          if |tzs| <= i {
            return;
          }
          label updateName: {
            match ei {
              case SetDisplayName(newDisplayName) =>
                tzs := tzs[i := WithDisplayName(tzs[i], newDisplayName)];
              case SetTz(newName) =>
                // the same zone chosen again keeps its display name
                if newName == tzs[i].tz.name {
                  break updateName;
                }
                tzs := tzs[i := TzFromName(zones, newName)];
            }
          }
          editingItem := None;
          MaybeUpdateConfig();
        case StartEditing(i, ie) =>
          if |tzs| <= i {
            return;
          }
          var tz := tzs[i].tz;
          match ie {
            case DisplayName =>
              textInputBuf := tz.displayName;
            case Name =>
              tzInputBuf := Some(tz.name);
          }
          editingItem := Some(EditingItem(i, ie));
        case CancelEditing =>
          editingItem := None;
        case Input(s) =>
          textInputBuf := s;
      }
    }

    /** `maybe_update_config`: write the list when every entry resolved. */
    method MaybeUpdateConfig()
      modifies this`configWrites
      ensures Model() == EditorSpec.MaybeUpdateConfig(old(Model()))
    {
      var maybeTzs := CollectOk(tzs);
      match maybeTzs {
        case Some(records) =>
          configWrites := configWrites + [records];
        case None =>
      }
    }
  }

  /** A client: removing the entry being edited leaves the cursor on its old
      index, now past the end of the list. */
  method RemoveKeepsCursor(zones: ZoneDb)
  {
    var editor := new Editor(zones, None);
    editor.Update(StartEditing(2, DisplayName));
    assert editor.editingItem == Some(EditingItem(2, DisplayName));
    assert editor.textInputBuf == "Perth";
    editor.Update(EditList(Remove(2)));
    assert |editor.tzs| == 2;
    assert editor.editingItem == Some(EditingItem(2, DisplayName));
  }
}
