# Authenticator core, modelled in Dafny

This project models the domain, data and view-model logic of an iOS app that is both a two-factor
authenticator and a password keeper. The app stores TOTP authenticators and website credentials in
Realm tables keyed by uid. It projects them through repositories that resolve each entry's service
by a case-insensitive name lookup. It shows one-time codes that refresh on a timer, and it drives
its screens through RxSwift view models. Those screens are the authenticator list, the password
list, the add/edit form, the QR scanner, the icon chooser, onboarding and settings.

How the model is arranged:

- **One module per source file.** Support modules sit beside them:
  - `Wrappers` holds `Option` and `Result`;
  - `Domain` holds the entity datatypes;
  - `Sequences` covers ordered sub-sequences and Swift's `filter`;
  - `Text` is an ASCII case fold with an infix test;
  - `Table` is the uid-keyed table that both Realm storages reduce to.
- **Classes stand for objects that change state.** The storages, repositories and view models are
  classes. Their subjects (`BehaviorSubject` values) become fields, and their triggers become
  methods.
- **Pure logic is functions.** Conversions, the refresh projection, the service lookup, the search
  filter, the QR extraction and the form rules are functions. Lemmas relate them: round trips,
  filter idempotence, case-insensitivity, and edit-then-save returning the same entry.
- **The code stream is a fold over ticks.** One-time-password generation is a function over an
  abstract `OtpLibrary`, which stands for SwiftOTP's base32 decoder and TOTP generator. The
  500 ms timer stream becomes `DistinctUntilChanged` over the sequence of evaluations. A method
  implements it with a `last` variable.

## Model

| member | source | states |
|---|---|---|
| AuthenticatorService.Parameters | Authenticator/Domain/Services/AuthenticatorService.swift:16-29 | omitted parameters default to six digits, a 30-second interval and SHA-1 |
| AuthenticatorService.SwiftRemainder | Authenticator/Domain/Services/AuthenticatorService.swift:74 | Swift's truncating `%`: the dividend is the divisor times some whole number plus the remainder, which has the dividend's sign and a magnitude below the divisor's; this pins it to the mathematical remainder for non-negative operands and to the truncated one otherwise |
| AuthenticatorService.ExpirationInSeconds | Authenticator/Domain/Services/AuthenticatorService.swift:72-74 | for a positive interval and a time from 1970 on, the expiry lies in [1, interval]; time plus expiry is the next multiple of the interval; at a window boundary the expiry is a full interval, never 0 |
| AuthenticatorService.ExpiryCountsDown | Authenticator/Domain/Services/AuthenticatorService.swift:72-74 | during the announced expiry the time step stays the same and the expiry seen later is the earlier one minus the seconds passed; when it runs out the next time step begins |
| AuthenticatorService.CodeHoldsUntilExpiry | Authenticator/Domain/Services/AuthenticatorService.swift:57-80 | for a library whose codes depend on the time only through the time step, a generation made before the earlier expiry runs out gives the same code with the timer lowered by the seconds passed, or the same error |
| AuthenticatorService.GenerateOneTimePassword | Authenticator/Domain/Services/AuthenticatorService.swift:57-80 | the result is unableToDecodeSecret exactly when decoding fails, and unableToGenerateTOTP exactly when decoding succeeds but generation yields nothing; a success carries exactly the generated code and the computed expiry, which is in [1, interval]; it is never unrecognizedError |
| AuthenticatorService.DistinctUntilChanged | Authenticator/Domain/Services/AuthenticatorService.swift:53 | the published values are a sub-sequence of the evaluations with no two equal neighbours, ending on the latest evaluation |
| AuthenticatorService.DistinctUntilChangedSnoc | Authenticator/Domain/Services/AuthenticatorService.swift:53 | one more evaluation is published exactly when it differs from the last published value |
| AuthenticatorService.DistinctUntilChangedIdempotent | Authenticator/Domain/Services/AuthenticatorService.swift:53 | filtering an already filtered stream changes nothing |
| AuthenticatorService.DistinctUntilChangedKeepsRunStarts | Authenticator/Domain/Services/AuthenticatorService.swift:53 | closed form of Rx's filter: the value at a position is published exactly when it is the first one or differs from the value just before it |
| AuthenticatorService.Evaluations | Authenticator/Domain/Services/AuthenticatorService.swift:42-52 | one evaluation per clock reading, each the generation result at that reading |
| AuthenticatorService.OneTimePasswordStream | Authenticator/Domain/Services/AuthenticatorService.swift:35-55 | the loop with a `last` variable publishes exactly `DistinctUntilChanged` of the evaluations |
| AuthenticatorContent.ContentViewModel.constructor | Authenticator/Presentation/Scenes/Authenticator/ContentView/AuthenticatorContentViewModel.swift:53-77 | the state starts idle, with no code, no timer and no live subscription |
| AuthenticatorContent.ContentViewModel.SubscriptionParameters | Authenticator/Presentation/Scenes/Authenticator/ContentView/AuthenticatorContentViewModel.swift:85 | the subscription uses the default length and hash, with `validCodeDuration` as its interval |
| AuthenticatorContent.ContentViewModel.Select | Authenticator/Presentation/Scenes/Authenticator/ContentView/AuthenticatorContentViewModel.swift:26-37 | selecting starts exactly one fresh subscription; deselecting cancels it, and does nothing when none is live; the display is untouched |
| AuthenticatorContent.ContentViewModel.InvalidateAuthenticator | Authenticator/Presentation/Scenes/Authenticator/ContentView/AuthenticatorContentViewModel.swift:79-81 | the live subscription and its stream memory are dropped |
| AuthenticatorContent.ContentViewModel.BindAuthenticator | Authenticator/Presentation/Scenes/Authenticator/ContentView/AuthenticatorContentViewModel.swift:83-101 | cancels first, then starts one new subscription with an empty stream memory |
| AuthenticatorContent.ContentViewModel.Tick | Authenticator/Presentation/Scenes/Authenticator/ContentView/AuthenticatorContentViewModel.swift:85-100 | with no subscription nothing changes; otherwise a repeated result is dropped, a new success sets idle and sends the code and the expiry as the timer, and a new failure sets failed and leaves code and timer alone; the invariant keeps the display equal to the last published result |
| AuthenticatorContent.ContentViewModel.Copy | Authenticator/Presentation/Scenes/Authenticator/ContentView/AuthenticatorContentViewModel.swift:39-51 | the pasteboard gets the published code and the alert is shown exactly when a code has been published |
| AuthenticatorEntity.ToDomain | Authenticator/Data/Entities/AuthenticatorData.swift:26-34 | copies uid, name, email and secret; no service gives the default service |
| AuthenticatorEntity.FromAuthenticator | Authenticator/Data/Entities/AuthenticatorData.swift:36-44 | copies the four fields, and the service name is present and equals the service's name |
| AuthenticatorEntity.DomainRoundTrip | Authenticator/Data/Entities/AuthenticatorData.swift:26-44 | converting an authenticator to a row and back with its own service gives it back |
| AuthenticatorEntity.DataRoundTrip | Authenticator/Data/Entities/AuthenticatorData.swift:26-44 | converting a row to the domain and back keeps uid, name, email and secret; only the service name is replaced by that of the resolved service |
| CredentialsEntity.ToDomain | Authenticator/Data/Entities/CredentialsData.swift:26-34 | copies uid, name, email and password; no service gives the default service |
| CredentialsEntity.FromCredentials | Authenticator/Data/Entities/CredentialsData.swift:36-44 | copies the four fields and sets a present service name |
| CredentialsEntity.DomainRoundTrip | Authenticator/Data/Entities/CredentialsData.swift:26-44 | row and back with its own service gives the credentials back |
| CredentialsEntity.DataRoundTrip | Authenticator/Data/Entities/CredentialsData.swift:26-44 | domain and back keeps uid, name, email and password |
| Table.Enrolled | Authenticator/Data/Services/AuthenticatorStorage.swift:14-25 | storing under a uid adds it to the fetch order if new and keeps every other uid in place; no uid appears twice |
| Table.Without | Authenticator/Data/Services/AuthenticatorStorage.swift:27-29 | deleting a uid removes exactly that uid from the fetch order and keeps the order of the rest |
| Table.Fetched | Authenticator/Data/Services/AuthenticatorStorage.swift:31-33 | fetching returns the row of each uid, in fetch order |
| Table.FetchedComplete | Authenticator/Data/Services/AuthenticatorStorage.swift:31-33 | every stored row is fetched, and nothing else is |
| Table.UpsertIdempotent | Authenticator/Data/Services/AuthenticatorStorage.swift:14-25 | storing the same row twice leaves the same table as storing it once |
| AuthenticatorStorage.Storage.Store | Authenticator/Data/Services/AuthenticatorStorage.swift:14-25 | in both branches (insert and in-place update), the row under the uid becomes exactly the given row and no other uid is touched |
| AuthenticatorStorage.Storage.constructor | Authenticator/Data/Services/AuthenticatorStorage.swift:10-12 | a new store holds no rows |
| AuthenticatorStorage.Storage.Delete | Authenticator/Data/Services/AuthenticatorStorage.swift:27-29 | removes that uid and leaves every other row unchanged |
| AuthenticatorStorage.Storage.FetchAll | Authenticator/Data/Services/AuthenticatorStorage.swift:31-33 | returns the row of every stored uid, in fetch order, each carrying its own uid |
| AuthenticatorStorage.StoredIsFetched | Authenticator/Data/Services/AuthenticatorStorage.swift:14-33 | after storing a row, fetching returns it |
| AuthenticatorStorage.DeletedIsNotFetched | Authenticator/Data/Services/AuthenticatorStorage.swift:27-33 | after deleting a uid, no fetched row carries it |
| CredentialsStorage.Storage.Store | Authenticator/Data/Services/CredentialsStorage.swift:14-25 | in both branches the row under the uid becomes exactly the given row; other uids are untouched |
| CredentialsStorage.Storage.constructor | Authenticator/Data/Services/CredentialsStorage.swift:10-12 | a new store holds no rows |
| CredentialsStorage.Storage.Delete | Authenticator/Data/Services/CredentialsStorage.swift:27-29 | removes only that uid |
| CredentialsStorage.Storage.FetchAll | Authenticator/Data/Services/CredentialsStorage.swift:31-33 | returns every stored row, in fetch order |
| CredentialsStorage.StoredIsFetched | Authenticator/Data/Services/CredentialsStorage.swift:14-33 | after storing a row, fetching returns it |
| CredentialsStorage.DeletedIsNotFetched | Authenticator/Data/Services/CredentialsStorage.swift:27-33 | after deleting a uid, no fetched row carries it |
| ServicesRepository.FindService | Authenticator/Domain/Repository/ServicesRepository.swift:31-34 | nil exactly when no service's lowercased name equals the lowercased query; otherwise the first service that matches |
| ServicesRepository.LookupIgnoresCase | Authenticator/Domain/Repository/ServicesRepository.swift:33 | queries that differ only in letter case find the same service |
| ServicesRepository.Repository.constructor | Authenticator/Domain/Repository/ServicesRepository.swift:20-29 | the list is replaced by what the initial load returned |
| ServicesRepository.Repository.Refresh | Authenticator/Domain/Repository/ServicesRepository.swift:12-18 | the list changes only by being replaced wholesale |
| ServicesRepository.Repository.ServiceNamed | Authenticator/Domain/Repository/ServicesRepository.swift:31-34 | the result is a listed service whose name matches; with an empty list every lookup is nil |
| ServicesRepository.ResolveService | Authenticator/Domain/Repository/AuthenticatorsRepository.swift:25 | `first(where:) ?? .default`: the first listed service whose name matches, ignoring case, or the default service when none matches |
| AuthenticatorsRepository.Named | Authenticator/Domain/Repository/AuthenticatorsRepository.swift:24 | keeps, in storage order, the rows that have a service name, each as many times as it is stored, and no other row |
| AuthenticatorsRepository.Resolved | Authenticator/Domain/Repository/AuthenticatorsRepository.swift:25 | a row with a service name keeps its uid, name, email and secret and takes the first catalogue service matching the name, or the default when none matches |
| AuthenticatorsRepository.Project | Authenticator/Domain/Repository/AuthenticatorsRepository.swift:16-27 | one authenticator per named row, in storage order, with its service resolved; never longer than storage |
| AuthenticatorsRepository.ProjectKeepsNamed | Authenticator/Domain/Repository/AuthenticatorsRepository.swift:23-26 | every named row appears, converted, in the projection |
| AuthenticatorsRepository.ProjectFromNamed | Authenticator/Domain/Repository/AuthenticatorsRepository.swift:23-26 | everything in the projection comes from a named row with the same uid |
| AuthenticatorsRepository.Repository.constructor | Authenticator/Domain/Repository/AuthenticatorsRepository.swift:33 | the published list is empty before the first refresh |
| AuthenticatorsRepository.Repository.Refresh | Authenticator/Domain/Repository/AuthenticatorsRepository.swift:16-31 | publishes the projection of what storage holds |
| AuthenticatorsRepository.Repository.Store | Authenticator/Domain/Repository/AuthenticatorsRepository.swift:48-51 | writes the converted row, refreshes, and the authenticator (with its service resolved) is then published |
| AuthenticatorsRepository.Repository.Delete | Authenticator/Domain/Repository/AuthenticatorsRepository.swift:53-56 | removes the uid's row, refreshes, and no published authenticator carries the uid |
| CredentialsRepository.Named | Authenticator/Domain/Repository/CredentialsRepository.swift:24 | keeps, in storage order, the rows that have a service name, each as many times as it is stored, and no other row |
| CredentialsRepository.Resolved | Authenticator/Domain/Repository/CredentialsRepository.swift:25 | a row with a service name keeps its uid, name, email and password and takes the first catalogue service matching the name, or the default when none matches |
| CredentialsRepository.Project | Authenticator/Domain/Repository/CredentialsRepository.swift:16-27 | one credentials value per named row, in storage order, with its service resolved |
| CredentialsRepository.ProjectKeepsNamed | Authenticator/Domain/Repository/CredentialsRepository.swift:23-26 | every named row appears in the projection |
| CredentialsRepository.ProjectFromNamed | Authenticator/Domain/Repository/CredentialsRepository.swift:23-26 | everything projected comes from a named row with its uid |
| CredentialsRepository.Repository.constructor | Authenticator/Domain/Repository/CredentialsRepository.swift:33 | the list is empty before the first refresh |
| CredentialsRepository.Repository.Refresh | Authenticator/Domain/Repository/CredentialsRepository.swift:16-31 | publishes the projection of storage |
| CredentialsRepository.Repository.Store | Authenticator/Domain/Repository/CredentialsRepository.swift:48-51 | after store and refresh the stored entry is published |
| CredentialsRepository.Repository.Delete | Authenticator/Domain/Repository/CredentialsRepository.swift:53-56 | after delete and refresh the uid is absent |
| Text.LowerChar | Authenticator/Domain/Repository/ServicesRepository.swift:33 | `lowercased()` on one character (ASCII): never upper case; only upper-case letters change, each by 32 |
| Text.Lower | Authenticator/Domain/Repository/ServicesRepository.swift:33 | `lowercased()` (ASCII): the same length, every character lowered on its own |
| Text.LowerIdempotent | Authenticator/Domain/Repository/ServicesRepository.swift:33 | lowercasing twice is lowercasing once |
| Text.HasInfixIff | Authenticator/Presentation/Scenes/Authenticator/AuthenticatorViewModel.swift:49-51 | the recursive infix test holds exactly when the needle occurs at some position |
| Text.ContainsIgnoringCaseIff | Authenticator/Presentation/Scenes/Authenticator/AuthenticatorViewModel.swift:49-51 | case-insensitive containment is a non-empty needle occurring, lowercased, in the lowercased text |
| Text.ContainsIgnoringCase | Authenticator/Presentation/Scenes/Authenticator/AuthenticatorViewModel.swift:49-51 | `localizedCaseInsensitiveContains` (ASCII): holds only for a non-empty needle no longer than the text |
| Text.ContainsIgnoringCaseFolds | Authenticator/Presentation/Scenes/Authenticator/AuthenticatorViewModel.swift:49-51 | lowercasing the needle does not change containment |
| Sequences.Keep | Authenticator/Presentation/Scenes/Authenticator/AuthenticatorViewModel.swift:48 | Swift's `filter`: an order-preserving sub-sequence in which every element that passes appears as often as in the input and no other element appears |
| Sequences.KeepIdempotent | Authenticator/Presentation/Scenes/Authenticator/AuthenticatorViewModel.swift:48 | filtering twice by the same test is filtering once |
| QrScanner.FirstNamed | Authenticator/Presentation/Scenes/QRScanner/QRScannerViewModel.swift:31-33 | `first(where:)`: nil exactly when no item has the name; otherwise the earliest item with it |
| QrScanner.QueryValue | Authenticator/Presentation/Scenes/QRScanner/QRScannerViewModel.swift:31-33 | `queryItems?.first(where:)?.value`: nil without query items or without an item of that name; otherwise exactly the value of the earliest item with the name |
| QrScanner.LastComponent | Authenticator/Presentation/Scenes/QRScanner/QRScannerViewModel.swift:34 | the login is the suffix of the path after its last colon, holding no colon; the whole path when it has none |
| QrScanner.ScanResult | Authenticator/Presentation/Scenes/QRScanner/QRScannerViewModel.swift:24-48 | nothing unless the URI parsed, its scheme is exactly `otpauth` and a `secret` item has a value; otherwise a model with no uid, the first secret as key, the first issuer as service name, the path's last component as login, and the service looked up by issuer ("" without one), or the default |
| QrScanner.ScanCreatesNewAuthenticator | Authenticator/Presentation/Scenes/QRScanner/QRScannerViewModel.swift:36-42 | continuing the form opened on a scan with an issuer saves a new authenticator under a fresh uid with the scanned secret |
| ServiceDetails.ContinueOutcome | Authenticator/Presentation/Scenes/AddNewServiceInfo/ServiceDetailsViewModel.swift:110-156 | no save exactly when name, login, key or service is missing; otherwise an entry of the form's kind, with the key as secret or password, keeping the uid when present and taking the fresh uid when not |
| ServiceDetails.IsContinueEnabled | Authenticator/Presentation/Scenes/AddNewServiceInfo/ServiceDetailsViewModel.swift:163-170 | the button is enabled exactly when name, login, key and service are all present and name, login and key are non-empty |
| ServiceDetails.SeededInputs | Authenticator/Presentation/Scenes/AddNewServiceInfo/ServiceDetailsViewModel.swift:41-55 | each input is seeded from the model the form was opened with and the key is always present, so a seeded form is enabled exactly when the model has a non-empty name, login and key and a service |
| ServiceDetails.EnabledContinueSaves | Authenticator/Presentation/Scenes/AddNewServiceInfo/ServiceDetailsViewModel.swift:105-170 | an enabled button always leads to a save |
| ServiceDetails.ContinueIgnoresEmptiness | Authenticator/Presentation/Scenes/AddNewServiceInfo/ServiceDetailsViewModel.swift:111-167 | the continue action checks presence only: empty texts disable the button, yet continue still saves them |
| ServiceDetails.ServiceDetailsViewModel.constructor | Authenticator/Presentation/Scenes/AddNewServiceInfo/ServiceDetailsViewModel.swift:172-203 | every input starts nil and the form has not been dismissed |
| ServiceDetails.ServiceDetailsViewModel.DidLoad | Authenticator/Presentation/Scenes/AddNewServiceInfo/ServiceDetailsViewModel.swift:41-55 | all five inputs are seeded from the model the form was opened with |
| ServiceDetails.ServiceDetailsViewModel.EnterServiceName | Authenticator/Presentation/Scenes/AddNewServiceInfo/ServiceDetailsViewModel.swift:172-175 | only the service name input changes |
| ServiceDetails.ServiceDetailsViewModel.EnterLogin | Authenticator/Presentation/Scenes/AddNewServiceInfo/ServiceDetailsViewModel.swift:177-180 | only the login input changes |
| ServiceDetails.ServiceDetailsViewModel.EnterKey | Authenticator/Presentation/Scenes/AddNewServiceInfo/ServiceDetailsViewModel.swift:182-185 | only the key input changes |
| ServiceDetails.ServiceDetailsViewModel.SelectIcon | Authenticator/Presentation/Scenes/AddNewServiceInfo/ServiceDetailsViewModel.swift:69-87 | a finished icon pick becomes the selected service; a cancelled one changes nothing |
| ServiceDetails.ServiceDetailsViewModel.Close | Authenticator/Presentation/Scenes/AddNewServiceInfo/ServiceDetailsViewModel.swift:57-67 | dismisses once without saving |
| ServiceDetails.ServiceDetailsViewModel.Continue | Authenticator/Presentation/Scenes/AddNewServiceInfo/ServiceDetailsViewModel.swift:105-161 | with nothing to save nothing changes; otherwise only the repository of the form's kind is written: the row under the entry's uid becomes the converted entry, the uid is enrolled in the storage order, the published list becomes the projection of the new table and holds the entry with its service resolved, and the form is dismissed exactly once |
| AuthenticatorScreen.Filtered | Authenticator/Presentation/Scenes/Authenticator/AuthenticatorViewModel.swift:43-57 | a nil or empty query shows the list unchanged; otherwise an order-preserving sub-sequence holding each authenticator whose email, name or service name contains the query ignoring case as often as the list does, and nothing else |
| AuthenticatorScreen.Matches | Authenticator/Presentation/Scenes/Authenticator/AuthenticatorViewModel.swift:49-51 | the search test: an empty query matches nothing |
| AuthenticatorScreen.FilterIgnoresCase | Authenticator/Presentation/Scenes/Authenticator/AuthenticatorViewModel.swift:48-52 | queries differing only in letter case show the same list |
| AuthenticatorScreen.FilterIdempotent | Authenticator/Presentation/Scenes/Authenticator/AuthenticatorViewModel.swift:47-52 | searching the shown list again with the same query changes nothing |
| AuthenticatorScreen.EditModel | Authenticator/Presentation/Scenes/Authenticator/AuthenticatorViewModel.swift:94-105 | nothing for a row out of range; otherwise the row's uid, name, secret as key, email as login and service |
| AuthenticatorScreen.EditRoundTrip | Authenticator/Presentation/Scenes/Authenticator/AuthenticatorViewModel.swift:94-109 | editing a row and continuing unchanged saves the same authenticator under its own uid |
| AuthenticatorScreen.DeleteTarget | Authenticator/Presentation/Scenes/Authenticator/AuthenticatorViewModel.swift:145-155 | a target exists exactly when the alert finished and the row is in range, and it is the shown row |
| AuthenticatorScreen.AuthenticatorViewModel.constructor | Authenticator/Presentation/Scenes/Authenticator/AuthenticatorViewModel.swift:85-88 | no search query has arrived yet |
| AuthenticatorScreen.AuthenticatorViewModel.Displayed | Authenticator/Presentation/Scenes/Authenticator/AuthenticatorViewModel.swift:43-57 | `combineLatest`: nothing is shown until a query arrives; then a sub-sequence of the published list, all of it for a nil or empty query, else each matching authenticator as often as the published list holds it, in order, and nothing else |
| AuthenticatorScreen.AuthenticatorViewModel.Search | Authenticator/Presentation/Scenes/Authenticator/AuthenticatorViewModel.swift:85-88 | the latest query is recorded |
| AuthenticatorScreen.AuthenticatorViewModel.Refresh | Authenticator/Presentation/Scenes/Authenticator/AuthenticatorViewModel.swift:27-41 | the repository publishes the projection of storage |
| AuthenticatorScreen.AuthenticatorViewModel.ManualInput | Authenticator/Presentation/Scenes/Authenticator/AuthenticatorViewModel.swift:59-72 | opens the "Add account" form on the empty model |
| AuthenticatorScreen.AuthenticatorViewModel.Edit | Authenticator/Presentation/Scenes/Authenticator/AuthenticatorViewModel.swift:90-113 | opens the edit form exactly for an in-range row of the shown list, on that row's model |
| AuthenticatorScreen.AuthenticatorViewModel.Delete | Authenticator/Presentation/Scenes/Authenticator/AuthenticatorViewModel.swift:138-159 | with no target nothing changes; otherwise the target's row and its place in the storage order are removed, the published list becomes the projection of the remaining rows, and no published authenticator carries the uid |
| PasswordsScreen.Filtered | Authenticator/Presentation/Scenes/Passwords/PasswordsViewModel.swift:43-57 | a nil or empty query shows the list unchanged; otherwise an order-preserving sub-sequence holding each matching entry as often as the list does, and nothing else |
| PasswordsScreen.Matches | Authenticator/Presentation/Scenes/Passwords/PasswordsViewModel.swift:49-51 | the search test: an empty query matches nothing |
| PasswordsScreen.FilterIgnoresCase | Authenticator/Presentation/Scenes/Passwords/PasswordsViewModel.swift:48-52 | queries differing only in case show the same list |
| PasswordsScreen.FilterIdempotent | Authenticator/Presentation/Scenes/Passwords/PasswordsViewModel.swift:47-52 | searching again with the same query changes nothing |
| PasswordsScreen.EditModel | Authenticator/Presentation/Scenes/Passwords/PasswordsViewModel.swift:113-128 | nothing out of range; otherwise the uid, name, password as key, email and service |
| PasswordsScreen.EditRoundTrip | Authenticator/Presentation/Scenes/Passwords/PasswordsViewModel.swift:113-132 | editing and continuing unchanged saves the same credentials under their uid |
| PasswordsScreen.DeleteTarget | Authenticator/Presentation/Scenes/Passwords/PasswordsViewModel.swift:97-107 | a target only after the alert finished and for an in-range row |
| PasswordsScreen.PasswordsViewModel.constructor | Authenticator/Presentation/Scenes/Passwords/PasswordsViewModel.swift:74-77 | no search query has arrived yet |
| PasswordsScreen.PasswordsViewModel.Displayed | Authenticator/Presentation/Scenes/Passwords/PasswordsViewModel.swift:43-57 | `combineLatest`: nothing is shown until a query arrives; then a sub-sequence of the published list, all of it for a nil or empty query, else each matching entry as often as the published list holds it, in order, and nothing else |
| PasswordsScreen.PasswordsViewModel.Search | Authenticator/Presentation/Scenes/Passwords/PasswordsViewModel.swift:74-77 | the latest query is recorded |
| PasswordsScreen.PasswordsViewModel.Refresh | Authenticator/Presentation/Scenes/Passwords/PasswordsViewModel.swift:27-41 | the repository publishes the projection of storage |
| PasswordsScreen.PasswordsViewModel.NewPassword | Authenticator/Presentation/Scenes/Passwords/PasswordsViewModel.swift:59-72 | opens the "New password" form on the empty model |
| PasswordsScreen.PasswordsViewModel.Edit | Authenticator/Presentation/Scenes/Passwords/PasswordsViewModel.swift:113-133 | opens the edit form exactly for an in-range row |
| PasswordsScreen.PasswordsViewModel.Delete | Authenticator/Presentation/Scenes/Passwords/PasswordsViewModel.swift:90-111 | with no target nothing changes; otherwise the target's row and its place in the storage order are removed, the published list becomes the projection of the remaining rows, and no published entry carries the uid |
| Onboarding.OnboardingItems | Authenticator/Presentation/Scenes/Onboarding/OnboardingViewModel.swift:126-151 | four steps, and only the last has type restore |
| Onboarding.NextPage | Authenticator/Presentation/Scenes/Onboarding/OnboardingViewModel.swift:80-85 | the next page exists exactly when row + 1 is a step index, and it is row + 1 |
| Onboarding.FinishesOnRestoreStep | Authenticator/Presentation/Scenes/Onboarding/OnboardingViewModel.swift:80-151 | on the four onboarding pages, continue finishes onboarding exactly on the Restore step and moves on from every other page |
| Onboarding.OnboardingViewModel.constructor | Authenticator/Presentation/Scenes/Onboarding/OnboardingViewModel.swift:41-49 | no steps and page 0 |
| Onboarding.OnboardingViewModel.Refresh | Authenticator/Presentation/Scenes/Onboarding/OnboardingViewModel.swift:21-39 | publishes the onboarding items; the page stays |
| Onboarding.OnboardingViewModel.Continue | Authenticator/Presentation/Scenes/Onboarding/OnboardingViewModel.swift:74-89 | moves to row + 1 when that step exists; otherwise shows the main screen and records onboarding as finished; the page stays a step index |
| Onboarding.OnboardingViewModel.Close | Authenticator/Presentation/Scenes/Onboarding/OnboardingViewModel.swift:51-61 | always shows the main screen and records onboarding as finished |
| ChooseIcon.Pick | Authenticator/Presentation/Scenes/ChooseIcon/ChooseIconViewModel.swift:81-93 | an in-range row selects that service; any other row keeps the selection |
| ChooseIcon.PickStaysInList | Authenticator/Presentation/Scenes/ChooseIcon/ChooseIconViewModel.swift:79-93 | after any taps from no selection, the selection is a listed service |
| ChooseIcon.ChooseIconViewModel.constructor | Authenticator/Presentation/Scenes/ChooseIcon/ChooseIconViewModel.swift:79 | nothing is selected at first |
| ChooseIcon.ChooseIconViewModel.IsContinueEnabled | Authenticator/Presentation/Scenes/ChooseIcon/ChooseIconViewModel.swift:95-99 | the button is enabled exactly when an icon is selected; `Continue` finishes exactly then |
| ChooseIcon.ChooseIconViewModel.Refresh | Authenticator/Presentation/Scenes/ChooseIcon/ChooseIconViewModel.swift:18-40 | the shown services are what the repository loaded |
| ChooseIcon.ChooseIconViewModel.Select | Authenticator/Presentation/Scenes/ChooseIcon/ChooseIconViewModel.swift:81-93 | an in-range row selects `services[row]`; any other row leaves the selection |
| ChooseIcon.ChooseIconViewModel.Continue | Authenticator/Presentation/Scenes/ChooseIcon/ChooseIconViewModel.swift:66-99 | finishes with exactly the selected service, exactly when the button is enabled |
| ChooseIcon.ChooseIconViewModel.Back | Authenticator/Presentation/Scenes/ChooseIcon/ChooseIconViewModel.swift:42-52 | cancels, never finishing with a service |
| ChooseIcon.ChooseIconViewModel.Close | Authenticator/Presentation/Scenes/ChooseIcon/ChooseIconViewModel.swift:54-64 | terminates, never finishing with a service |
| Settings.DefaultItems | Authenticator/Presentation/Scenes/Settings/SettingsViewModel.swift:156-162 | five items: support, privacy policy, terms of use, rate app, share |
| Settings.BuildSettings | Authenticator/Presentation/Scenes/Settings/SettingsViewModel.swift:49-62 | with a subscription, the default items; without, "Go premium" at index 0 before them (six items); the subscriptions row appears only there |
| Settings.ActionFor | Authenticator/Presentation/Scenes/Settings/SettingsViewModel.swift:103-121 | each kind of row leads to its own screen: premium, contact us, the privacy or terms link, review, share |
| Settings.ActionsAreDistinct | Authenticator/Presentation/Scenes/Settings/SettingsViewModel.swift:103-121 | different kinds of row never lead to the same place |
| Settings.SettingsViewModel.constructor | Authenticator/Presentation/Scenes/Settings/SettingsViewModel.swift:66-79 | Touch ID, biometrics off and no rows before any refresh |
| Settings.SettingsViewModel.Refresh | Authenticator/Presentation/Scenes/Settings/SettingsViewModel.swift:37-64 | takes the device's biometric type and the persisted flag, and builds the list from the subscription status |
| Settings.SettingsViewModel.Select | Authenticator/Presentation/Scenes/Settings/SettingsViewModel.swift:92-125 | an action exactly for an in-range row, namely the action of its kind |
| Settings.SettingsViewModel.Biometric | Authenticator/Presentation/Scenes/Settings/SettingsViewModel.swift:127-139 | the alert shows exactly when switching on; the new value is persisted either way; the shown switch waits for the next refresh |

## Left out

- SwiftOTP's base32 decoding, HMAC-SHA1/256/512 and TOTP truncation are foreign code. They are the two functions of `OtpLibrary`, deterministic and otherwise unconstrained.
- AuthenticatorService.CodeHoldsUntilExpiry: assumes of SwiftOTP (`CounterBased`) that its code depends on the time only through the time step of section 4.2 of RFC 6238, because the library is not part of this model; it also assumes that both clock readings of an evaluation give the same second.
- The clock is read twice per evaluation (Authenticator/Domain/Services/AuthenticatorService.swift:72 and :75). Both readings are inputs (`ClockReading`), and nothing claims that the code and the expiry come from the same second.
- AuthenticatorService.GenerateOneTimePassword requires a non-zero interval whenever the secret decodes, because Swift's `%` then traps on zero; a secret that does not decode fails before the remainder is taken, so any interval is allowed there. The same requirement sits on `Evaluations`, `OneTimePasswordStream` and `ContentViewModel.Tick`. The expiry bounds are stated only for a positive interval and a time from 1970 on.
- Rx scheduling is out: the 500 ms interval, `MainScheduler`, `subscribe(on:)`, DisposeBag lifetimes and the `[weak self]` nil paths (including the `unrecognizedError` result when the service is gone). A tick is a call to `ContentViewModel.Tick`, and a subject is a field.
- Realm is reduced to a table keyed by uid, with fetch order taken as insertion order. Realm does not promise an order for an unsorted `objects` query, so nothing here depends on that order beyond its being stable.
- `lowercased()` and `localizedCaseInsensitiveContains` are locale-aware. The model folds ASCII letters only, and, as Foundation does, treats an empty needle as never contained.
- `URLComponents` parsing is out. The scanner takes the already-split scheme, path and query items, or `None` for nil or unparseable text.
- UUID generation is a caller-supplied fresh uid.
- User defaults, the biometric service (LocalAuthentication), the JSON loading of Services.json, and the App Store subscription status all arrive as parameters or fields.
- Routers, UIKit views, the pasteboard, the safari, mail and share screens, `createEmailUrl` and every image are out. A router call becomes a returned request, a returned action or a counter.
- The restore, terms-of-service and privacy-policy triggers of onboarding, and the settings and close triggers of the list and settings screens, only hand a link or a screen to the router. They are not modelled.
- The scan trigger of the authenticator list only forwards the scanner's model to the form, and it is not modelled. What the scanner produces is modelled, in `QrScanner.ScanResult`.
- `AuthenticatorPasswordLength` is not part of this model. It is represented by its digit count (`rawValue`), and six is the default.
- `SettingsModel` is not part of this model. It is represented by its image name, title and kind.
