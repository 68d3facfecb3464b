/**
 * The global UI store (src/store/useStore.ts): the dark-mode flag, which is
 * persisted under the storage key "theme", and the mobile-menu flag, which is
 * not persisted.
 *
 * `UiState` is the abstract value of the store together with the storage it
 * writes; the functions over it specify the store's operations, and the
 * class `AppStore` performs them in place.
 */
module Store {
  import opened Browser

  const ThemeKey: string := "theme"

  /** The stored spelling of a theme. */
  function ThemeValue(isDark: bool): string {
    if isDark then "dark" else "light"
  }

  /** `getInitialTheme`: a non-empty stored theme decides (dark iff it is "dark");
      otherwise the system colour-scheme preference does. */
  function InitialTheme(items: map<string, string>, systemPrefersDark: bool): (isDark: bool)
    ensures ThemeKey in items && items[ThemeKey] != [] ==> (isDark <==> items[ThemeKey] == "dark")
    ensures (ThemeKey !in items || items[ThemeKey] == []) ==> isDark == systemPrefersDark
  {
    var saved := TruthyItem(items, ThemeKey);
    if saved != [] then saved == "dark" else systemPrefersDark
  }

  datatype UiState = UiState(isDarkMode: bool, isMenuOpen: bool, storage: map<string, string>)

  /** Storage agrees with memory: reloading the page reproduces the theme. */
  predicate Persisted(s: UiState) {
    ThemeKey in s.storage && s.storage[ThemeKey] == ThemeValue(s.isDarkMode)
  }

  /** The state the store is created in. */
  function Initial(storage: map<string, string>, systemPrefersDark: bool): (s: UiState)
    ensures !s.isMenuOpen && s.storage == storage
    ensures s.isDarkMode == InitialTheme(storage, systemPrefersDark)
  {
    UiState(InitialTheme(storage, systemPrefersDark), false, storage)
  }

  /** The state after `setDarkMode(isDark)`. */
  function ThemeSet(s: UiState, isDark: bool): (r: UiState)
    ensures r.isDarkMode == isDark && r.isMenuOpen == s.isMenuOpen
    ensures Persisted(r)
    ensures forall k :: k != ThemeKey ==> (k in r.storage <==> k in s.storage)
    ensures forall k :: k != ThemeKey && k in s.storage ==> r.storage[k] == s.storage[k]
  {
    s.(isDarkMode := isDark, storage := s.storage[ThemeKey := ThemeValue(isDark)])
  }

  /** The state after `toggleTheme()`. */
  function ThemeToggled(s: UiState): (r: UiState)
    ensures r.isDarkMode == !s.isDarkMode && r.isMenuOpen == s.isMenuOpen
    ensures Persisted(r)
    ensures forall k :: k != ThemeKey ==> (k in r.storage <==> k in s.storage)
    ensures forall k :: k != ThemeKey && k in s.storage ==> r.storage[k] == s.storage[k]
  {
    var newState := !s.isDarkMode;
    s.(isDarkMode := newState, storage := s.storage[ThemeKey := ThemeValue(newState)])
  }

  /** The state after `toggleMenu()`: no storage is written. */
  function MenuToggled(s: UiState): (r: UiState)
    ensures r.isMenuOpen == !s.isMenuOpen
    ensures r.isDarkMode == s.isDarkMode && r.storage == s.storage
    ensures Persisted(r) == Persisted(s)
  {
    s.(isMenuOpen := !s.isMenuOpen)
  }

  /** After a theme operation, a reload (`getInitialTheme` on the new storage)
      yields the theme in memory, whatever the system preference. */
  lemma ReloadRestoresTheme(s: UiState, systemPrefersDark: bool)
    requires Persisted(s)
    ensures InitialTheme(s.storage, systemPrefersDark) == s.isDarkMode
  {
    assert s.storage[ThemeKey] != [];
  }

  /** `setDarkMode` is idempotent. */
  lemma SetDarkModeIdempotent(s: UiState, isDark: bool)
    ensures ThemeSet(ThemeSet(s, isDark), isDark) == ThemeSet(s, isDark)
  {
    assert ThemeSet(s, isDark).storage[ThemeKey := ThemeValue(isDark)] == ThemeSet(s, isDark).storage;
  }

  /** Toggling is setting the opposite value. */
  lemma ToggleIsSetOpposite(s: UiState)
    ensures ThemeToggled(s) == ThemeSet(s, !s.isDarkMode)
  {
  }

  /** Two toggles restore the theme; they restore the whole state when it was persisted. */
  lemma ToggleThemeTwice(s: UiState)
    ensures ThemeToggled(ThemeToggled(s)).isDarkMode == s.isDarkMode
    ensures ThemeToggled(ThemeToggled(s)) == ThemeSet(s, s.isDarkMode)
    ensures Persisted(s) ==> ThemeToggled(ThemeToggled(s)) == s
  {
    var once := ThemeToggled(s);
    assert once.storage[ThemeKey := ThemeValue(s.isDarkMode)] == s.storage[ThemeKey := ThemeValue(s.isDarkMode)];
    if Persisted(s) {
      assert s.storage[ThemeKey := ThemeValue(s.isDarkMode)] == s.storage;
    }
  }

  /** Two menu toggles restore the state. */
  lemma ToggleMenuTwice(s: UiState)
    ensures MenuToggled(MenuToggled(s)) == s
  {
  }

  /** The zustand store, sharing `storage` with the rest of the page. */
  class AppStore {
    var isDarkMode: bool
    var isMenuOpen: bool
    const storage: LocalStorage

    function State(): UiState
      reads this, storage
    {
      UiState(isDarkMode, isMenuOpen, storage.items)
    }

    constructor (storage: LocalStorage, systemPrefersDark: bool)
      ensures this.storage == storage
      ensures State() == Initial(storage.items, systemPrefersDark)
    {
      this.storage := storage;
      isDarkMode := InitialTheme(storage.items, systemPrefersDark);
      isMenuOpen := false;
    }

    method SetDarkMode(isDark: bool)
      modifies this, storage
      ensures State() == ThemeSet(old(State()), isDark)
    {
      storage.items := storage.items[ThemeKey := ThemeValue(isDark)];
      isDarkMode := isDark;
    }

    method ToggleTheme()
      modifies this, storage
      ensures State() == ThemeToggled(old(State()))
    {
      var newState := !isDarkMode;
      storage.items := storage.items[ThemeKey := ThemeValue(newState)];
      isDarkMode := newState;
    }

    method ToggleMenu()
      modifies this
      ensures State() == MenuToggled(old(State()))
    {
      isMenuOpen := !isMenuOpen;
    }
  }
}
