/** The first-launch pager (Presentation/Scenes/Onboarding/OnboardingViewModel.swift).
    The router's main-screen transition is counted; the persisted
    "onboarding finished" flag is a field. */
module Onboarding {
  import opened Wrappers

  /** `OnboardingStep.StepType`. */
  datatype StepType = Info | Restore

  /** `OnboardingStep`. */
  datatype OnboardingStep = OnboardingStep(
    backgroundImage: string,
    title: string,
    description: string,
    buttonTitle: string,
    stepType: StepType)

  /** `onboardingItems`: four pages, and only the last offers a restore. */
  function OnboardingItems(): (items: seq<OnboardingStep>)
    ensures |items| == 4
    ensures forall i :: 0 <= i < |items| ==> (items[i].stepType == Restore <==> i == 3)
  {
    [ OnboardingStep("onboardingFirst", "2FA Autheticator for your safety!",
        "Protect your accounts from data leaks and verify with one code at a time!", "Continue", Info),
      OnboardingStep("onboardingSecond", "Protect your code for digital safety",
        "Easily find any passwords you need as they are collected in one safe place", "Continue", Info),
      OnboardingStep("onboardingThird", "Access quikly with your camera",
        "Automatic account setup via QR code: easy to ensure your setup is accurate", "Continue", Info),
      OnboardingStep("onboardingFourth", "Accounts secured without limitations",
        "Easily protect all your online accounts, manage passwords for $5.99 per week", "Continue", Restore) ]
  }

  /** What `continueTrigger` on a row does, given how many steps are shown:
      the page after it when there is one, otherwise `None`, which finishes
      onboarding. */
  function NextPage(stepCount: nat, row: int): (next: Option<nat>)
    ensures next.Some? <==> -1 <= row < stepCount - 1
    ensures next.Some? ==> next.value == row + 1 < stepCount
  {
    if 0 <= row + 1 < stepCount then Some(row + 1) else None
  }

  /** On the four onboarding pages, continue finishes onboarding exactly on
      the Restore step, the last page; on every other page it moves on. */
  lemma FinishesOnRestoreStep(row: int)
    requires 0 <= row < |OnboardingItems()|
    ensures NextPage(|OnboardingItems()|, row).None? <==> OnboardingItems()[row].stepType == Restore
  {
  }

  class OnboardingViewModel {
    /** The value of `stepsSubject`. */
    var steps: seq<OnboardingStep>
    /** The value of `currentPageSubject`. */
    var currentPage: int
    /** `userDefaultsStore.isOnboardingFinished`. */
    var isOnboardingFinished: bool
    /** How many times the router was asked for the main screen. */
    var mainScreenShown: nat

    /** The steps are the onboarding items once loaded, and the page is
        always one of them (or the first, before they are loaded). */
    ghost predicate Valid()
      reads this
    {
      && (steps == [] || steps == OnboardingItems())
      && 0 <= currentPage
      && (currentPage == 0 || currentPage < |steps|)
    }

    /** No steps, first page, nothing shown; the stored flag is as persisted. */
    constructor (isOnboardingFinished: bool)
      ensures Valid()
      ensures steps == [] && currentPage == 0 && mainScreenShown == 0
      ensures this.isOnboardingFinished == isOnboardingFinished
    {
      steps := [];
      currentPage := 0;
      this.isOnboardingFinished := isOnboardingFinished;
      mainScreenShown := 0;
    }

    /** `didLoadTrigger` and `refreshTrigger`: publish the onboarding items. */
    method Refresh()
      requires Valid()
      modifies this
      ensures Valid()
      ensures steps == OnboardingItems()
      ensures currentPage == old(currentPage) && isOnboardingFinished == old(isOnboardingFinished)
      ensures mainScreenShown == old(mainScreenShown)
    {
      steps := OnboardingItems();
    }

    /** `continueTrigger`: move to the next page when the row has one after
        it; otherwise show the main screen and record onboarding as finished. */
    method Continue(row: int)
      requires Valid()
      modifies this
      ensures Valid()
      ensures steps == old(steps)
      ensures 0 <= row + 1 < |steps| ==>
                && currentPage == row + 1
                && isOnboardingFinished == old(isOnboardingFinished)
                && mainScreenShown == old(mainScreenShown)
      ensures !(0 <= row + 1 < |steps|) ==>
                && currentPage == old(currentPage)
                && isOnboardingFinished
                && mainScreenShown == old(mainScreenShown) + 1
    {
      var next := NextPage(|steps|, row);
      if next.Some? {
        currentPage := next.value;
      } else {
        mainScreenShown := mainScreenShown + 1;
        isOnboardingFinished := true;
      }
    }

    /** `closeTrigger`: always show the main screen and record onboarding as finished. */
    method Close()
      requires Valid()
      modifies this
      ensures Valid()
      ensures isOnboardingFinished && mainScreenShown == old(mainScreenShown) + 1
      ensures steps == old(steps) && currentPage == old(currentPage)
    {
      mainScreenShown := mainScreenShown + 1;
      isOnboardingFinished := true;
    }
  }
}
