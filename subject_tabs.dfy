/** The subject tabs (src/components/SubjectTabs.jsx): which subject tab is locked,
    and what a click on a tab does. */
module SubjectTabs {
  /** `isLocked`: maths until English is completed, English once its time is locked. */
  predicate IsLocked(key: string, englishCompleted: bool, englishLocked: bool) {
    (key == "maths" && !englishCompleted) || (key == "english" && englishLocked)
  }

  /** What a click leads to: a warning dialog, or `onSubjectChange(key)`. */
  datatype Click = ShowWarning(title: string, message: string) | ChangeSubject(key: string)

  /** The tab's `onClick`. It does not look at which tab is active, so clicking the
      active tab also switches (to itself). */
  function OnClick(key: string, englishCompleted: bool, englishLocked: bool): (r: Click)
    ensures r.ChangeSubject? <==> !IsLocked(key, englishCompleted, englishLocked)
    ensures r.ChangeSubject? ==> r.key == key
  {
    if IsLocked(key, englishCompleted, englishLocked) then
      if key == "english" && englishLocked then ShowWarning("English Locked", "English time has expired.")
      else ShowWarning("Section locked", "Complete English before accessing Maths.")
    else ChangeSubject(key)
  }

  /** Maths is locked exactly while English is not completed, English exactly while it
      is locked, and no other subject is ever locked. */
  lemma LockRule(key: string, englishCompleted: bool, englishLocked: bool)
    ensures key == "maths" ==> (IsLocked(key, englishCompleted, englishLocked) <==> !englishCompleted)
    ensures key == "english" ==> (IsLocked(key, englishCompleted, englishLocked) <==> englishLocked)
    ensures key != "maths" && key != "english" ==> !IsLocked(key, englishCompleted, englishLocked)
  {
  }

  /** Each locked tab explains itself and never switches. */
  lemma LockedTabsWarn(englishCompleted: bool, englishLocked: bool)
    ensures englishLocked ==>
      OnClick("english", englishCompleted, englishLocked) == ShowWarning("English Locked", "English time has expired.")
    ensures !englishCompleted ==>
      OnClick("maths", englishCompleted, englishLocked) == ShowWarning("Section locked", "Complete English before accessing Maths.")
  {
  }
}
