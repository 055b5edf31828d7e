/** Picking a service icon for the form
    (Presentation/Scenes/ChooseIcon/ChooseIconViewModel.swift). */
module ChooseIcon {
  import opened Wrappers
  import opened Domain
  import ServicesRepository

  /** How the picker ends: `finish(service:)`, `cancel()` or `terminate()`. */
  datatype PickerExit = Finish(service: Service) | Cancel | Terminate

  /** `selectedTrigger`'s pick: the service at the row, or no change for a
      row outside the list. */
  function Pick(services: seq<Service>, row: int, selected: Option<Service>): (r: Option<Service>)
    ensures 0 <= row < |services| ==> r == Some(services[row])
    ensures !(0 <= row < |services|) ==> r == selected
  {
    if 0 <= row < |services| then Some(services[row]) else selected
  }

  /** A selection made from the list only ever holds a listed service. */
  lemma {:induction false} PickStaysInList(services: seq<Service>, rows: seq<int>)
    ensures var s := PickAll(services, rows);
            s.Some? ==> s.value in services
  {
    if |rows| > 0 {
      PickStaysInList(services, rows[..|rows| - 1]);
    }
  }

  /** The selection after a series of row taps, starting from none. */
  function PickAll(services: seq<Service>, rows: seq<int>): Option<Service>
  {
    if |rows| == 0 then None
    else Pick(services, rows[|rows| - 1], PickAll(services, rows[..|rows| - 1]))
  }

  class ChooseIconViewModel {
    const servicesRepository: ServicesRepository.Repository
    /** The value of `selectedIcon`. */
    var selectedIcon: Option<Service>

    /** Nothing is selected at first. */
    constructor (servicesRepository: ServicesRepository.Repository)
      ensures this.servicesRepository == servicesRepository && selectedIcon == None
    {
      this.servicesRepository := servicesRepository;
      selectedIcon := None;
    }

    /** `isContinueButtonEnabled`. */
    predicate IsContinueEnabled(): (enabled: bool)
      reads this
      ensures enabled <==> selectedIcon.Some?
    {
      selectedIcon.Some?
    }

    /** `didLoadTrigger` and `refreshTrigger`: the repository takes the loaded list. */
    method Refresh(loaded: seq<Service>)
      modifies servicesRepository
      ensures servicesRepository.services == loaded
    {
      servicesRepository.Refresh(loaded);
    }

    /** `selectedTrigger`: select the service at an in-range row; any other
        row leaves the selection as it was. */
    method Select(row: int)
      modifies this
      ensures 0 <= row < |servicesRepository.services| ==>
                selectedIcon == Some(servicesRepository.services[row])
      ensures !(0 <= row < |servicesRepository.services|) ==> selectedIcon == old(selectedIcon)
    {
      selectedIcon := Pick(servicesRepository.services, row, selectedIcon);
    }

    /** `continueTrigger`: finish with exactly the selected service; with
        nothing selected, nothing happens. */
    method Continue() returns (exit: Option<PickerExit>)
      ensures exit.Some? <==> IsContinueEnabled()
      ensures exit.Some? ==> exit.value == Finish(selectedIcon.value)
    {
      exit := if selectedIcon.Some? then Some(Finish(selectedIcon.value)) else None;
    }

    /** `backTrigger`: cancel, never finishing with a service. */
    method Back() returns (exit: PickerExit)
      ensures exit == Cancel
    {
      exit := Cancel;
    }

    /** `closeTrigger`: terminate, never finishing with a service. */
    method Close() returns (exit: PickerExit)
      ensures exit == Terminate
    {
      exit := Terminate;
    }
  }
}
