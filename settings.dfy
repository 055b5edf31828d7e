/** The settings screen (Presentation/Scenes/Settings/SettingsViewModel.swift).
    What the biometric service and the user-defaults store report arrives as
    parameters; the persisted biometric flag is a field. */
module Settings {
  import opened Wrappers

  /** `BiometricType`. */
  datatype BiometricType = FaceID | TouchID

  /** The kinds of row on the settings screen. */
  datatype SettingsItemType = Subscriptions | Support | PrivacyPolicy | TermsOfUse | RateThisApp | Share

  /** `SettingsModel`: the row's image name, title and kind. */
  datatype SettingsItem = SettingsItem(imageName: string, title: string, itemType: SettingsItemType)

  /** The links the screen opens (`AppConstants.Links`). */
  const PrivacyAndPolicyLink := "https://docs.google.com/document/d/1-V6vBYQxi7tUSy_X5TVwc6skbLVyXHrjANNyCwFCOHU/edit?usp=sharing"
  const TermsOfUseLink := "https://docs.google.com/document/d/1-bRMtRSuH0pLoMZIwI69CA441mkxM0Cj0xaw91mEhTA/edit?usp=sharing"
  const ApplicationLink := "add link to app"

  /** The support e-mail's recipient, subject and body. */
  const SupportOwner := "pregvanngl@gmail.com"
  const SupportSubject := "Your topic"
  const SupportBody := "Write your question, please."

  /** The "Go premium" row shown to users without a subscription. */
  const GoPremium := SettingsItem("goPremium", "Go premium", Subscriptions)

  /** `defaultItems`: support, privacy policy, terms of use, rate the app and
      share, in that order. */
  function DefaultItems(): (items: seq<SettingsItem>)
    ensures |items| == 5
    ensures items[0].itemType == Support && items[1].itemType == PrivacyPolicy
    ensures items[2].itemType == TermsOfUse && items[3].itemType == RateThisApp
    ensures items[4].itemType == Share
  {
    [ SettingsItem("goPremium", "Support", Support),
      SettingsItem("privacyPolicy", "Privacy & Policy", PrivacyPolicy),
      SettingsItem("termsOfUse", "Terms of Use", TermsOfUse),
      SettingsItem("rateApp", "Rate this APP", RateThisApp),
      SettingsItem("share", "Share", Share) ]
  }

  /** The settings list `refreshTrigger` builds: the default items, with the
      "Go premium" row inserted in front of them when there is no subscription. */
  method BuildSettings(hasSubscription: bool) returns (items: seq<SettingsItem>)
    ensures hasSubscription ==> items == DefaultItems()
    ensures !hasSubscription ==> |items| == 6 && items[0] == GoPremium && items[1..] == DefaultItems()
    ensures forall i :: 0 <= i < |items| ==> (items[i].itemType == Subscriptions <==> !hasSubscription && i == 0)
  {
    items := DefaultItems();
    if !hasSubscription {
      items := [GoPremium] + items;
    }
  }

  /** Where selecting a row leads. */
  datatype SettingsAction =
    | ShowPremium
    | ContactUs(email: string, subject: string, body: string)
    | ShowSafari(link: string)
    | ShowReview
    | ShareWithFriends(link: string)

  /** `selectTrigger`'s dispatch on the row's kind. */
  function ActionFor(itemType: SettingsItemType): (action: SettingsAction)
    ensures action.ShowPremium? <==> itemType == Subscriptions
    ensures action.ContactUs? <==> itemType == Support
    ensures action.ShowSafari? <==> itemType == PrivacyPolicy || itemType == TermsOfUse
    ensures action.ShowReview? <==> itemType == RateThisApp
    ensures action.ShareWithFriends? <==> itemType == Share
    ensures action.ShowSafari? ==> action.link == (if itemType == PrivacyPolicy then PrivacyAndPolicyLink else TermsOfUseLink)
  {
    match itemType
    case Subscriptions => ShowPremium
    case Support => ContactUs(SupportOwner, SupportSubject, SupportBody)
    case PrivacyPolicy => ShowSafari(PrivacyAndPolicyLink)
    case TermsOfUse => ShowSafari(TermsOfUseLink)
    case RateThisApp => ShowReview
    case Share => ShareWithFriends(ApplicationLink)
  }

  /** Different kinds of row never lead to the same place. */
  lemma ActionsAreDistinct(x: SettingsItemType, y: SettingsItemType)
    requires x != y
    ensures ActionFor(x) != ActionFor(y)
  {
  }

  class SettingsViewModel {
    /** The value of `biometricTypeSubject`. */
    var biometricType: BiometricType
    /** The value of `isBiometricEnabledSubject`. */
    var isBiometricEnabled: bool
    /** The value of `settingsSubject`. */
    var settings: seq<SettingsItem>
    /** The biometric flag the biometric service persists. */
    var storedBiometricEnabled: bool

    /** Before any refresh: Touch ID, biometrics off, no rows. */
    constructor (storedBiometricEnabled: bool)
      ensures biometricType == TouchID && !isBiometricEnabled && settings == []
      ensures this.storedBiometricEnabled == storedBiometricEnabled
    {
      biometricType := TouchID;
      isBiometricEnabled := false;
      settings := [];
      this.storedBiometricEnabled := storedBiometricEnabled;
    }

    /** `didLoadTrigger` and `refreshTrigger`: take the device's biometric
        type, the persisted biometric flag, and build the list from whether
        the user has a subscription. */
    method Refresh(deviceBiometricType: BiometricType, hasSubscription: bool)
      modifies this
      ensures biometricType == deviceBiometricType
      ensures isBiometricEnabled == storedBiometricEnabled == old(storedBiometricEnabled)
      ensures hasSubscription ==> settings == DefaultItems()
      ensures !hasSubscription ==> settings == [GoPremium] + DefaultItems()
    {
      biometricType := deviceBiometricType;
      isBiometricEnabled := storedBiometricEnabled;
      settings := BuildSettings(hasSubscription);
    }

    /** `selectTrigger`: the action of the row's kind for an in-range row,
        nothing for any other. */
    method Select(row: int) returns (action: Option<SettingsAction>)
      ensures action.Some? <==> 0 <= row < |settings|
      ensures action.Some? ==> action.value == ActionFor(settings[row].itemType)
    {
      if 0 <= row < |settings| {
        action := Some(ActionFor(settings[row].itemType));
      } else {
        action := None;
      }
    }

    /** `biometricTrigger`: switching on shows the biometrics alert; the new
        value is persisted either way. The shown switch is left to the next refresh. */
    method Biometric(isOn: bool) returns (alertShown: bool)
      modifies this
      ensures alertShown == isOn
      ensures storedBiometricEnabled == isOn
      ensures biometricType == old(biometricType) && isBiometricEnabled == old(isBiometricEnabled)
      ensures settings == old(settings)
    {
      alertShown := isOn;
      storedBiometricEnabled := isOn;
    }
  }
}
