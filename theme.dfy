/**
 * The browser's theme service: the current colour theme (light or dark),
 * the theme saved in local storage, the theme applied to the document, the
 * registered change listeners, and the handlers it registers for changes of
 * the system's colour preference.
 */
module Theme {
  import opened JsValues

  const Light := "light"
  const Dark := "dark"

  predicate IsTheme(t: string)
  {
    t == Light || t == Dark
  }

  /** A theme-change callback; callbacks are compared by identity. */
  type Listener = nat

  /** One invocation of a listener with a theme. */
  datatype Call = Call(listener: Listener, theme: string)

  /** Each listener called once with `theme`, in registration order. */
  function Notifications(listeners: seq<Listener>, theme: string): (r: seq<Call>)
    ensures |r| == |listeners|
    ensures forall i :: 0 <= i < |r| ==> r[i] == Call(listeners[i], theme)
  {
    if listeners == [] then [] else [Call(listeners[0], theme)] + Notifications(listeners[1..], theme)
  }

  /** `listeners.filter(listener => listener !== callback)`. */
  function Without(s: seq<Listener>, cb: Listener): (r: seq<Listener>)
    ensures cb !in r
    ensures forall x :: x != cb ==> multiset(r)[x] == multiset(s)[x]
  {
    if s == [] then []
    else
      assert s == [s[0]] + s[1..];
      (if s[0] == cb then [] else [s[0]]) + Without(s[1..], cb)
  }

  /** Removing distributes over concatenation, so the remaining listeners
      keep their order. */
  lemma {:induction false} WithoutAppend(a: seq<Listener>, b: seq<Listener>, cb: Listener)
    ensures Without(a + b, cb) == Without(a, cb) + Without(b, cb)
  {
    if a == [] {
      assert a + b == b;
    } else {
      assert (a + b)[0] == a[0];
      assert (a + b)[1..] == a[1..] + b;
      WithoutAppend(a[1..], b, cb);
      var h := if a[0] == cb then [] else [a[0]];
      assert Without(a + b, cb) == h + (Without(a[1..], cb) + Without(b, cb));
      assert Without(a, cb) == h + Without(a[1..], cb);
      assert h + (Without(a[1..], cb) + Without(b, cb)) == (h + Without(a[1..], cb)) + Without(b, cb);
    }
  }

  /** Removing a callback that is not registered changes nothing. */
  lemma {:induction false} WithoutAbsent(s: seq<Listener>, cb: Listener)
    requires cb !in s
    ensures Without(s, cb) == s
  {
    if s != [] {
      WithoutAbsent(s[1..], cb);
    }
  }

  /** Registering a new callback and removing it again restores the list. */
  lemma AddThenRemove(s: seq<Listener>, cb: Listener)
    requires cb !in s
    ensures Without(s + [cb], cb) == s
  {
    WithoutAppend(s, [cb], cb);
    WithoutAbsent(s, cb);
  }

  /** The theme `toggleTheme` switches to. */
  function Toggled(t: string): (r: string)
    ensures IsTheme(r) && r != t
  {
    if t == Light then Dark else Light
  }

  lemma ToggledTwice(t: string)
    requires IsTheme(t)
    ensures Toggled(Toggled(t)) == t
  {
  }

  /** `getInitialTheme`: a valid saved theme, else the system preference
      when the browser can report one, else light. */
  function InitialTheme(saved: Option<string>, hasMatchMedia: bool, prefersDark: bool): (t: string)
    ensures IsTheme(t)
    ensures saved.Some? && IsTheme(saved.value) ==> t == saved.value
    ensures !(saved.Some? && IsTheme(saved.value)) ==> (t == Dark <==> hasMatchMedia && prefersDark)
  {
    if saved.Some? && saved.value != "" && IsTheme(saved.value) then saved.value
    else if hasMatchMedia && prefersDark then Dark
    else Light
  }

  /** `!localStorage.getItem('selected-theme')`. */
  predicate NothingSaved(saved: Option<string>)
  {
    saved.None? || saved.value == ""
  }

  class ThemeService {
    var currentTheme: string
    var listeners: seq<Listener>
    /** The `selected-theme` entry of local storage. */
    var saved: Option<string>
    /** The document's `data-theme` attribute and class, once set. */
    var dataTheme: Option<string>
    var documentClass: Option<string>
    /** Every listener invocation so far, in order. */
    var calls: seq<Call>
    /** Whether the browser offers `window.matchMedia`. */
    const hasMatchMedia: bool
    /** How many system-preference handlers `watchSystemTheme` has registered. */
    var watchers: nat

    predicate Valid()
      reads this
    {
      IsTheme(currentTheme)
    }

    constructor(stored: Option<string>, hasMatchMedia: bool)
      ensures Valid()
      ensures currentTheme == Light && listeners == [] && saved == stored
      ensures dataTheme == None && documentClass == None && calls == []
      ensures this.hasMatchMedia == hasMatchMedia && watchers == 0
    {
      currentTheme := Light;
      listeners := [];
      saved := stored;
      dataTheme := None;
      documentClass := None;
      calls := [];
      this.hasMatchMedia := hasMatchMedia;
      watchers := 0;
    }

    /** `init`: pick the initial theme, apply it, and watch the system preference. */
    method Init(prefersDark: bool)
      modifies this
      ensures Valid()
      ensures currentTheme == InitialTheme(old(saved), hasMatchMedia, prefersDark)
      ensures dataTheme == Some(currentTheme) && documentClass == Some("theme-" + currentTheme)
      ensures watchers == old(watchers) + (if hasMatchMedia then 1 else 0)
      ensures saved == old(saved) && listeners == old(listeners) && calls == old(calls)
    {
      currentTheme := GetInitialTheme(prefersDark);
      ApplyTheme(currentTheme);
      SetupSystemThemeListener();
    }

    function GetInitialTheme(prefersDark: bool): (t: string)
      reads this
      ensures IsTheme(t)
      ensures saved.Some? && IsTheme(saved.value) ==> t == saved.value
      ensures !(saved.Some? && IsTheme(saved.value)) ==> (t == Dark <==> hasMatchMedia && prefersDark)
    {
      InitialTheme(saved, hasMatchMedia, prefersDark)
    }

    /** `setTheme`: anything but light or dark is refused and nothing
        changes; otherwise the theme is set, saved, applied and announced. */
    method SetTheme(theme: string)
      modifies this
      ensures !IsTheme(theme) ==> unchanged(this)
      ensures IsTheme(theme) ==>
                currentTheme == theme && saved == Some(theme) &&
                dataTheme == Some(theme) && documentClass == Some("theme-" + theme) &&
                calls == old(calls) + Notifications(listeners, theme) &&
                listeners == old(listeners) && watchers == old(watchers)
      ensures old(Valid()) ==> Valid()
    {
      if !IsTheme(theme) {
        return;
      }
      currentTheme := theme;
      saved := Some(theme);
      ApplyTheme(theme);
      NotifyListeners(theme);
    }

    method GetTheme() returns (t: string)
      ensures t == currentTheme
    {
      t := currentTheme;
    }

    method GetCurrentTheme() returns (t: string)
      ensures t == currentTheme
    {
      t := GetTheme();
    }

    /** `toggleTheme`: light becomes dark and anything else becomes light. */
    method ToggleTheme()
      modifies this
      ensures Valid()
      ensures currentTheme == Toggled(old(currentTheme)) && saved == Some(currentTheme)
      ensures dataTheme == Some(currentTheme) && documentClass == Some("theme-" + currentTheme)
      ensures calls == old(calls) + Notifications(listeners, currentTheme)
      ensures listeners == old(listeners) && watchers == old(watchers)
    {
      SetTheme(Toggled(currentTheme));
    }

    method ApplyTheme(theme: string)
      modifies this
      ensures dataTheme == Some(theme) && documentClass == Some("theme-" + theme)
      ensures currentTheme == old(currentTheme) && saved == old(saved) && listeners == old(listeners)
      ensures calls == old(calls) && watchers == old(watchers)
    {
      dataTheme := Some(theme);
      documentClass := Some("theme-" + theme);
    }

    method AddThemeChangeListener(callback: Listener)
      modifies this
      ensures listeners == old(listeners) + [callback]
      ensures currentTheme == old(currentTheme) && saved == old(saved) && calls == old(calls)
      ensures dataTheme == old(dataTheme) && documentClass == old(documentClass) && watchers == old(watchers)
    {
      listeners := listeners + [callback];
    }

    /** Removes every registration of `callback`. */
    method RemoveThemeChangeListener(callback: Listener)
      modifies this
      ensures listeners == Without(old(listeners), callback)
      ensures currentTheme == old(currentTheme) && saved == old(saved) && calls == old(calls)
      ensures dataTheme == old(dataTheme) && documentClass == old(documentClass) && watchers == old(watchers)
    {
      listeners := Without(listeners, callback);
    }

    method AddListener(callback: Listener)
      modifies this
      ensures listeners == old(listeners) + [callback]
      ensures currentTheme == old(currentTheme) && saved == old(saved) && calls == old(calls)
      ensures dataTheme == old(dataTheme) && documentClass == old(documentClass) && watchers == old(watchers)
    {
      AddThemeChangeListener(callback);
    }

    method RemoveListener(callback: Listener)
      modifies this
      ensures listeners == Without(old(listeners), callback)
      ensures currentTheme == old(currentTheme) && saved == old(saved) && calls == old(calls)
      ensures dataTheme == old(dataTheme) && documentClass == old(documentClass) && watchers == old(watchers)
    {
      RemoveThemeChangeListener(callback);
    }

    /** Calls every listener once with `theme`, in registration order. */
    method NotifyListeners(theme: string)
      modifies this
      ensures calls == old(calls) + Notifications(listeners, theme)
      ensures currentTheme == old(currentTheme) && saved == old(saved) && listeners == old(listeners)
      ensures dataTheme == old(dataTheme) && documentClass == old(documentClass) && watchers == old(watchers)
    {
      for i := 0 to |listeners|
        invariant currentTheme == old(currentTheme) && saved == old(saved) && listeners == old(listeners)
        invariant calls == old(calls) + Notifications(listeners[..i], theme)
        invariant dataTheme == old(dataTheme) && documentClass == old(documentClass) && watchers == old(watchers)
      {
        assert Notifications(listeners[..i + 1], theme) == Notifications(listeners[..i], theme) + [Call(listeners[i], theme)];
        calls := calls + [Call(listeners[i], theme)];
      }
      assert listeners[..|listeners|] == listeners;
    }

    method SetupSystemThemeListener()
      modifies this
      ensures watchers == old(watchers) + (if hasMatchMedia then 1 else 0)
      ensures currentTheme == old(currentTheme) && saved == old(saved) && listeners == old(listeners)
      ensures dataTheme == old(dataTheme) && documentClass == old(documentClass) && calls == old(calls)
    {
      WatchSystemTheme();
    }

    /** `watchSystemTheme`: registers one more handler when the browser can
        report the system preference. */
    method WatchSystemTheme()
      modifies this
      ensures watchers == old(watchers) + (if hasMatchMedia then 1 else 0)
      ensures currentTheme == old(currentTheme) && saved == old(saved) && listeners == old(listeners)
      ensures dataTheme == old(dataTheme) && documentClass == old(documentClass) && calls == old(calls)
    {
      if hasMatchMedia {
        watchers := watchers + 1;
      }
    }

    /** The system preference changed: every registered handler runs in
        turn, and each sets the theme only while nothing is saved. The first
        one saves it, so the change is applied at most once, and never when
        a theme was already saved. */
    method OnSystemThemeChange(matches: bool)
      modifies this
      ensures var t := if matches then Dark else Light;
              if NothingSaved(old(saved)) && watchers > 0 then
                currentTheme == t && saved == Some(t) &&
                dataTheme == Some(t) && documentClass == Some("theme-" + t) &&
                calls == old(calls) + Notifications(listeners, t) &&
                listeners == old(listeners) && watchers == old(watchers)
              else
                unchanged(this)
      ensures old(Valid()) ==> Valid()
    {
      var t := if matches then Dark else Light;
      for i := 0 to watchers
        invariant watchers == old(watchers) && listeners == old(listeners)
        invariant i == 0 || !NothingSaved(old(saved)) ==> unchanged(this)
        invariant i > 0 && NothingSaved(old(saved)) ==>
                    currentTheme == t && saved == Some(t) &&
                    dataTheme == Some(t) && documentClass == Some("theme-" + t) &&
                    calls == old(calls) + Notifications(listeners, t)
      {
        if NothingSaved(saved) {
          SetTheme(t);
        }
      }
    }
  }
}
