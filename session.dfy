/**
 * Session bootstrap and locale selection of lib/index.js: the initial store
 * state built from the persisted values, and the message catalog picked for
 * the current locale.
 */
module Session {
  import opened JsValue
  import opened ReducerFactory

  /** The locale used when none is persisted. */
  const DefaultLocale: string := "en"

  /**
   * `storage.get(key)`. The persistence layer is modelled as the map of
   * values it holds; a key it does not hold reads as undefined.
   */
  function StorageGet(persisted: map<string, Value>, key: string): Value {
    Get(persisted, key)
  }

  /** `state.application[key]`: throws when the application slice is undefined or null. */
  function ApplicationField(state: State, key: string): Result<Value> {
    Member(Get(state, "application"), key)
  }

  /** The application slice's user permissions, `state.application.user.permissions`. */
  function Permissions(state: State): Result<Value> {
    match ApplicationField(state, "user")
    case TypeError => TypeError
    case Ok(user) => Member(user, "permissions")
  }

  /**
   * `initialState`: the application slice takes the persisted token as it
   * is (absent included), the persisted locale when it is truthy and "en"
   * otherwise, and a user without permissions.
   */
  function InitialState(persisted: map<string, Value>): (state: State)
    ensures state.Keys == {"application"}
    ensures state["application"].Object?
    ensures state["application"].fields.Keys == {"token", "locale", "user"}
    ensures ApplicationField(state, "token") == Ok(StorageGet(persisted, "token"))
    ensures Truthy(StorageGet(persisted, "locale")) ==> ApplicationField(state, "locale") == Ok(StorageGet(persisted, "locale"))
    ensures !Truthy(StorageGet(persisted, "locale")) ==> ApplicationField(state, "locale") == Ok(Str(DefaultLocale))
    ensures Permissions(state) == Ok(Array([]))
  {
    map["application" := Object(map[
      "token" := StorageGet(persisted, "token"),
      "locale" := Or(StorageGet(persisted, "locale"), Str(DefaultLocale)),
      "user" := Object(map["permissions" := Array([])])
    ])]
  }

  /** The initial locale is never falsy, whatever is persisted. */
  lemma InitialLocaleIsTruthy(persisted: map<string, Value>)
    ensures ApplicationField(InitialState(persisted), "locale").Ok?
    ensures Truthy(ApplicationField(InitialState(persisted), "locale").value)
  {
  }

  /** A message catalog: message identifier to translated text. */
  type Messages = map<string, string>

  /** The catalog `i18n` exports under `name`, if any. */
  function CatalogNamed(i18n: map<string, Messages>, name: string): Option<Messages> {
    if name in i18n then Some(i18n[name]) else None
  }

  /** The properties handed to the locale provider. */
  datatype IntlData = IntlData(locale: Value, messages: Option<Messages>)

  /**
   * The `intlData` of getRootChildren: the current locale and the catalog
   * that `i18n` exports under that locale's name, absent when it exports
   * none. Reading the locale throws when the application slice is missing.
   */
  function IntlDataFor(i18n: map<string, Messages>, state: State): (r: Result<IntlData>)
    ensures r.TypeError? <==> ApplicationField(state, "locale").TypeError?
    ensures r.Ok? ==> r.value.locale == ApplicationField(state, "locale").value
    ensures r.Ok? ==> (r.value.messages.Some? <==> r.value.locale.Str? && r.value.locale.s in i18n)
    ensures r.Ok? && r.value.messages.Some? ==> r.value.messages.value == i18n[r.value.locale.s]
  {
    match ApplicationField(state, "locale")
    case TypeError => TypeError
    case Ok(locale) =>
      var messages := if locale.Str? then CatalogNamed(i18n, locale.s) else None;
      Ok(IntlData(locale, messages))
  }

  /**
   * At start-up the catalog is the one named by the persisted locale when
   * that is a non-empty string, and the "en" catalog when nothing truthy is
   * persisted.
   */
  lemma StartupCatalog(i18n: map<string, Messages>, persisted: map<string, Value>)
    ensures IntlDataFor(i18n, InitialState(persisted)).Ok?
    ensures var locale := StorageGet(persisted, "locale");
      locale.Str? && locale.s != "" && locale.s in i18n ==>
        IntlDataFor(i18n, InitialState(persisted)).value.messages == Some(i18n[locale.s])
    ensures !Truthy(StorageGet(persisted, "locale")) ==>
      IntlDataFor(i18n, InitialState(persisted)).value == IntlData(Str(DefaultLocale), CatalogNamed(i18n, DefaultLocale))
  {
  }
}
