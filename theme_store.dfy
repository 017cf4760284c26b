/**
 * The light/dark/system theme toggle (lib/stores/theme-store.ts). The store's
 * `theme` field is changed by `setTheme`; `applyTheme` adds or removes the
 * `dark` class on the document's root element, whose class list is a set here.
 * The browser's `prefers-color-scheme: dark` answer is a parameter: `None` when
 * there is no window, `Some(prefersDark)` otherwise; a `null` root element
 * stands for the absence of a document.
 */
module ThemeStore {
  import opened Common

  datatype Theme = Light | Dark | System

  const DarkClass: string := "dark"

  /** `resolvedTheme()` for a stored theme: explicit themes win, `system` asks the window. */
  function Resolve(theme: Theme, prefersDark: Option<bool>): (r: Theme)
    ensures r != System
    ensures theme != System ==> r == theme
    ensures theme == System ==> (r == Dark <==> prefersDark == Some(true))
  {
    match theme
    case Light => Light
    case Dark => Dark
    case System => if prefersDark.Some? && prefersDark.value then Dark else Light
  }

  /** The root element's classes after `applyTheme(theme)`. */
  function ClassesAfter(theme: Theme, prefersDark: Option<bool>, classes: set<string>): (c: set<string>)
    ensures DarkClass in c <==> Resolve(theme, prefersDark) == Dark
    ensures c - {DarkClass} == classes - {DarkClass}
  {
    if theme == Light then classes - {DarkClass}
    else if theme == Dark then classes + {DarkClass}
    else if prefersDark.Some? && prefersDark.value then classes + {DarkClass}
    else classes - {DarkClass}
  }

  /** Applying a theme twice is the same as applying it once. */
  lemma ApplyIdempotent(theme: Theme, prefersDark: Option<bool>, classes: set<string>)
    ensures ClassesAfter(theme, prefersDark, ClassesAfter(theme, prefersDark, classes))
         == ClassesAfter(theme, prefersDark, classes)
  {
    var once := ClassesAfter(theme, prefersDark, classes);
    var twice := ClassesAfter(theme, prefersDark, once);
    assert twice - {DarkClass} == once - {DarkClass};
    assert forall x :: x in twice <==> x in once by {
      forall x ensures x in twice <==> x in once {
        if x != DarkClass {
          assert x in twice <==> x in twice - {DarkClass};
          assert x in once <==> x in once - {DarkClass};
        }
      }
    }
  }

  /** Only the last applied theme matters: nothing of an earlier one survives. */
  lemma LastApplyWins(first: Theme, second: Theme, prefersDark: Option<bool>, classes: set<string>)
    ensures ClassesAfter(second, prefersDark, ClassesAfter(first, prefersDark, classes))
         == ClassesAfter(second, prefersDark, classes)
  {
    var mid := ClassesAfter(first, prefersDark, classes);
    var left := ClassesAfter(second, prefersDark, mid);
    var right := ClassesAfter(second, prefersDark, classes);
    assert left - {DarkClass} == right - {DarkClass};
    assert forall x :: x in left <==> x in right by {
      forall x ensures x in left <==> x in right {
        if x != DarkClass {
          assert x in left <==> x in left - {DarkClass};
          assert x in right <==> x in right - {DarkClass};
        }
      }
    }
  }

  /** `document.documentElement`. */
  class RootElement {
    var classList: set<string>

    constructor(classes: set<string>)
      ensures classList == classes
    {
      classList := classes;
    }
  }

  /** `applyTheme(theme)`: a no-op without a document, else toggles `dark` only. */
  method ApplyTheme(theme: Theme, root: RootElement?, prefersDark: Option<bool>)
    modifies root
    ensures root != null ==> root.classList == ClassesAfter(theme, prefersDark, old(root.classList))
  {
    if root == null {
      return;
    }
    if theme == Light {
      root.classList := root.classList - {DarkClass};
    } else if theme == Dark {
      root.classList := root.classList + {DarkClass};
    } else {
      if prefersDark.Some? && prefersDark.value {
        root.classList := root.classList + {DarkClass};
      } else {
        root.classList := root.classList - {DarkClass};
      }
    }
  }

  /** The persisted theme store. */
  class Store {
    var theme: Theme

    constructor()
      ensures theme == System
    {
      theme := System;
    }

    /** `resolvedTheme()`. */
    function ResolvedTheme(prefersDark: Option<bool>): Theme
      reads this
    {
      Resolve(theme, prefersDark)
    }

    /** `setTheme(theme)`: store the theme, then apply it to the root element. */
    method SetTheme(t: Theme, root: RootElement?, prefersDark: Option<bool>)
      modifies this, root
      ensures theme == t
      ensures root != null ==> root.classList == ClassesAfter(t, prefersDark, old(root.classList))
      ensures root != null ==> (DarkClass in root.classList <==> ResolvedTheme(prefersDark) == Dark)
    {
      theme := t;
      ApplyTheme(t, root, prefersDark);
    }
  }
}
