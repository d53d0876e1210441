/** The add-meeting screen's rule: check the entered text, then add the
    meeting, or report missing data, or ask what to do about a meeting that
    already has this name. Alerts are outcome values. */
module AddMeetingScreen {
  import opened Meeting
  import opened Store

  /** The alert the screen presents. `AlreadyExists` carries the entered
      values that its action handlers capture. */
  datatype Alert =
    | CheckData
    | AlreadyExists(name: string, date: string, purpose: string)
    | MeetingAdded
    | MeetingUpdated
    | NoAlert

  /** The three actions of the "already exists" alert, in its order. */
  datatype ConflictChoice = AddAnother | UpdateExisting | Cancel

  /** The decision taken on a tap, given the three fields' text and whether
      a meeting with the entered name exists. */
  function TapDecision(nameText: Option<string>, dateText: Option<string>, purposeText: Option<string>,
                       nameExists: bool): (alert: Alert)
    ensures alert == CheckData <==> OrEmpty(nameText) == "" || OrEmpty(dateText) == ""
    ensures alert.AlreadyExists? <==> OrEmpty(nameText) != "" && OrEmpty(dateText) != "" && nameExists
    ensures alert.AlreadyExists? ==>
      alert == AlreadyExists(OrEmpty(nameText), OrEmpty(dateText), OrEmpty(purposeText))
    ensures alert == MeetingAdded <==> OrEmpty(nameText) != "" && OrEmpty(dateText) != "" && !nameExists
  {
    var name := OrEmpty(nameText);
    var date := OrEmpty(dateText);
    var purpose := OrEmpty(purposeText);
    if name == "" || date == "" then CheckData
    else if nameExists then AlreadyExists(name, date, purpose)
    else MeetingAdded
  }

  /** Only the name and the date are required: an absent or empty purpose
      does not lead to the missing-data alert. */
  lemma EmptyPurposeAccepted(name: string, date: string, purposeText: Option<string>, nameExists: bool)
    requires name != "" && date != "" && OrEmpty(purposeText) == ""
    ensures TapDecision(Some(name), Some(date), purposeText, nameExists) != CheckData
  {
  }

  /** The screen's own `addMeeting`: insert, then the "added" alert. */
  method AddMeeting(store: CoreDataManager, name: string, date: string, purpose: string)
    returns (alert: Alert)
    requires store.Valid()
    modifies store
    ensures store.Valid() && alert == MeetingAdded
    ensures store.records == old(store.records) + [Record(old(store.nextId), Some(name), Some(date), Some(purpose))]
    ensures CountNamed(store.records, name) == old(CountNamed(store.records, name)) + 1
    ensures store.dirty && store.persisted == old(store.persisted) && store.nextId == old(store.nextId) + 1
    ensures store.notifications == old(store.notifications) + 1
  {
    store.AddMeeting(name, date, purpose);
    alert := MeetingAdded;
  }

  /** The screen's own `updateMeeting`: update, then the "updated" alert. */
  method UpdateMeeting(store: CoreDataManager, name: string, date: string, purpose: string)
    returns (alert: Alert)
    requires store.Valid()
    modifies store
    ensures store.Valid() && alert == MeetingUpdated
    ensures !old(store.CheckIfMeetingExists(name)) ==> store.records == old(store.records)
    ensures old(store.CheckIfMeetingExists(name)) ==>
      exists k :: 0 <= k < |old(store.records)| && old(store.records)[k].name == Some(name)
        && store.records == old(store.records)[k := Updated(old(store.records)[k], name, date, purpose)]
    ensures store.dirty == (old(store.dirty) || old(store.CheckIfMeetingExists(name)))
    ensures store.persisted == old(store.persisted) && store.nextId == old(store.nextId)
    ensures store.notifications == old(store.notifications) + 1
  {
    store.UpdateMeeting(name, date, purpose);
    alert := MeetingUpdated;
  }

  /** Tapping the add button. Only a valid entry with a new name reaches the
      store; every other outcome leaves the store as it was. */
  method AddMeetingTap(store: CoreDataManager, nameText: Option<string>, dateText: Option<string>,
                       purposeText: Option<string>)
    returns (alert: Alert)
    requires store.Valid()
    modifies store
    ensures store.Valid()
    ensures alert == TapDecision(nameText, dateText, purposeText, old(store.CheckIfMeetingExists(OrEmpty(nameText))))
    ensures alert != MeetingAdded ==> unchanged(store)
    ensures alert == MeetingAdded ==>
      && store.records == old(store.records)
           + [Record(old(store.nextId), Some(OrEmpty(nameText)), Some(OrEmpty(dateText)), Some(OrEmpty(purposeText)))]
      && store.dirty && store.persisted == old(store.persisted) && store.nextId == old(store.nextId) + 1
      && store.notifications == old(store.notifications) + 1
  {
    var name := OrEmpty(nameText);
    var date := OrEmpty(dateText);
    var purpose := OrEmpty(purposeText);
    if name == "" || date == "" {
      return CheckData;
    }
    if store.CheckIfMeetingExists(name) {
      return AlreadyExists(name, date, purpose);
    }
    alert := AddMeeting(store, name, date, purpose);
  }

  /** The handlers of the "already exists" alert: add a second meeting with
      this name, update the existing one, or do nothing. */
  method ResolveConflict(store: CoreDataManager, name: string, date: string, purpose: string,
                         choice: ConflictChoice)
    returns (alert: Alert)
    requires store.Valid()
    modifies store
    ensures store.Valid()
    ensures choice == AddAnother ==>
      && alert == MeetingAdded
      && store.records == old(store.records) + [Record(old(store.nextId), Some(name), Some(date), Some(purpose))]
      && CountNamed(store.records, name) == old(CountNamed(store.records, name)) + 1
      && store.dirty && store.persisted == old(store.persisted) && store.nextId == old(store.nextId) + 1
      && store.notifications == old(store.notifications) + 1
    ensures choice == UpdateExisting ==>
      && alert == MeetingUpdated
      && (!old(store.CheckIfMeetingExists(name)) ==> store.records == old(store.records))
      && (old(store.CheckIfMeetingExists(name)) ==>
            exists k :: 0 <= k < |old(store.records)| && old(store.records)[k].name == Some(name)
              && store.records == old(store.records)[k := Updated(old(store.records)[k], name, date, purpose)])
      && store.dirty == (old(store.dirty) || old(store.CheckIfMeetingExists(name)))
      && store.persisted == old(store.persisted) && store.nextId == old(store.nextId)
      && store.notifications == old(store.notifications) + 1
    ensures choice == Cancel ==> alert == NoAlert && unchanged(store)
  {
    match choice
    case AddAnother =>
      alert := AddMeeting(store, name, date, purpose);
    case UpdateExisting =>
      alert := UpdateMeeting(store, name, date, purpose);
    case Cancel =>
      alert := NoAlert;
  }
}
