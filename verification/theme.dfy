/**
 * The theme hook: the stored theme (a string that should be 'light' or
 * 'dark', default 'light'), the toggle, and the effect that keeps the
 * document root's class list in step with it.
 */
module Theme {
  import opened AppData

  const Light: string := "light"
  const Dark: string := "dark"

  /** The class the effect adds for the dark theme. */
  const DarkClass: string := "dark"

  /** `theme === 'light' ? 'dark' : 'light'`. */
  function Toggled(theme: string): (r: string)
    ensures theme == Light ==> r == Dark
    ensures theme != Light ==> r == Light
  {
    if theme == Light then Dark else Light
  }

  /** Toggling twice gives back 'light' or 'dark'; any other stored value becomes 'light'. */
  lemma {:induction false} ToggleTwice(theme: string)
    ensures theme == Light || theme == Dark ==> Toggled(Toggled(theme)) == theme
    ensures theme != Light && theme != Dark ==> Toggled(Toggled(theme)) == Dark
  {
  }

  /** `classList.add(c)`: appended unless already present. */
  function AddClass(classes: seq<string>, c: string): (r: seq<string>)
    ensures forall x :: x in r <==> x in classes || x == c
  {
    if c in classes then classes else classes + [c]
  }

  /** `classList.remove(c)`: every occurrence dropped, the order of the rest kept. */
  function RemoveClass(classes: seq<string>, c: string): (r: seq<string>)
    ensures forall x :: x in r <==> x in classes && x != c
  {
    if classes == [] then []
    else (if classes[0] == c then [] else [classes[0]]) + RemoveClass(classes[1..], c)
  }

  /** A class list holds each class at most once. */
  predicate NoRepeats(classes: seq<string>) {
    forall i, j :: 0 <= i < j < |classes| ==> classes[i] != classes[j]
  }

  lemma {:induction false} RemoveKeepsNoRepeats(classes: seq<string>, c: string)
    requires NoRepeats(classes)
    ensures NoRepeats(RemoveClass(classes, c))
  {
    if classes != [] {
      RemoveKeepsNoRepeats(classes[1..], c);
      var rest := RemoveClass(classes[1..], c);
      assert classes[0] !in classes[1..];
      assert classes[0] !in rest;
      var r := RemoveClass(classes, c);
      if classes[0] != c {
        forall i, j | 0 <= i < j < |r| ensures r[i] != r[j] {
          if i == 0 { assert r[j] in rest; } else { assert r[i] == rest[i - 1] && r[j] == rest[j - 1]; }
        }
      }
    }
  }

  class ThemeStore {
    /** The value stored under the 'theme' key. */
    var theme: string
    /** `document.documentElement.classList`. */
    var rootClasses: seq<string>

    /** After the effect has run, the root has the dark class exactly for the dark theme. */
    ghost predicate Valid()
      reads this
    {
      NoRepeats(rootClasses) && (DarkClass in rootClasses <==> theme == Dark)
    }

    /** The hook's first render: the stored theme or 'light', then the effect. */
    constructor (stored: Option<string>, classes: seq<string>)
      requires NoRepeats(classes)
      ensures Valid()
      ensures theme == if stored.Some? then stored.value else Light
      ensures forall x :: x != DarkClass ==> (x in rootClasses <==> x in classes)
    {
      theme := if stored.Some? then stored.value else Light;
      rootClasses := classes;
      new;
      ApplyTheme();
    }

    /** The effect: add or remove the dark class; no other class changes. */
    method ApplyTheme()
      requires NoRepeats(rootClasses)
      modifies this
      ensures Valid()
      ensures theme == old(theme)
      ensures forall x :: x != DarkClass ==> (x in rootClasses <==> x in old(rootClasses))
    {
      if theme == Dark {
        rootClasses := AddClass(rootClasses, DarkClass);
        forall i, j | 0 <= i < j < |rootClasses| ensures rootClasses[i] != rootClasses[j] {
          if j == |rootClasses| - 1 && DarkClass !in old(rootClasses) {
            assert rootClasses[i] in old(rootClasses);
          }
        }
      } else {
        RemoveKeepsNoRepeats(rootClasses, DarkClass);
        rootClasses := RemoveClass(rootClasses, DarkClass);
      }
    }

    /** `toggleTheme()`, followed by the effect the new theme triggers. */
    method ToggleTheme()
      requires Valid()
      modifies this
      ensures Valid()
      ensures theme == Toggled(old(theme))
      ensures forall x :: x != DarkClass ==> (x in rootClasses <==> x in old(rootClasses))
    {
      theme := Toggled(theme);
      ApplyTheme();
    }

    /** `setTheme(t)`, followed by the effect. */
    method SetTheme(t: string)
      requires Valid()
      modifies this
      ensures Valid()
      ensures theme == t
      ensures forall x :: x != DarkClass ==> (x in rootClasses <==> x in old(rootClasses))
    {
      theme := t;
      ApplyTheme();
    }
  }
}
