// The menu stack of src/context/context_menu.c: a fixed array of menu
// selections with an index to its top, -1 when empty.

module Menu {

  datatype MenuSelect = Main | Load | Configure | ConfigureGraphics | GameStart | Exit

  const MenuStackMax: nat := 64

  class MenuStack {
    var stack: array<MenuSelect>
    var index: int

    ghost predicate Valid()
      reads this
    {
      stack.Length == MenuStackMax && -1 <= index < MenuStackMax
    }

    /** The menus on the stack, bottom first. */
    ghost function Contents(): (s: seq<MenuSelect>)
      reads this, stack
      requires Valid()
      ensures |s| == index + 1
    {
      stack[..index + 1]
    }

    constructor ()
      ensures Valid() && fresh(stack) && Contents() == []
    {
      stack := new MenuSelect[MenuStackMax](_ => Main);
      index := -1;
    }

    /** menu_push: the index moves up and the menu is stored on top. The source
        does not check the bound, so a full stack may not be pushed. */
    method Push(menu: MenuSelect)
      requires Valid() && index + 1 < MenuStackMax
      modifies this`index, stack
      ensures Valid() && index == old(index) + 1
      ensures Contents() == old(Contents()) + [menu]
    {
      index := index + 1;
      stack[index] := menu;
    }

    /** menu_pop: refuses (false, nothing changes) when at most one menu is
        left; otherwise drops the top one. */
    method Pop() returns (popped: bool)
      requires Valid()
      modifies this`index
      ensures Valid()
      ensures popped <==> old(index) > 0
      ensures popped ==> index == old(index) - 1 && Contents() == old(Contents())[..old(index)]
      ensures !popped ==> index == old(index)
    {
      if index <= 0 {
        return false;
      }
      index := index - 1;
      return true;
    }

    /** The start of the menu engine step: an empty stack gets the main menu;
        the menu on top is then the one shown. */
    method Current() returns (top: MenuSelect)
      requires Valid()
      modifies this`index, stack
      ensures Valid() && index >= 0
      ensures old(index) == -1 ==> Contents() == [Main] && top == Main
      ensures old(index) != -1 ==> Contents() == old(Contents()) && top == Contents()[index]
    {
      if index == -1 {
        Push(Main);
      }
      top := stack[index];
    }

    /** Popping until refused (as on shutdown) leaves exactly the bottom menu,
        or nothing if the stack was empty. */
    method PopAll()
      requires Valid()
      modifies this`index
      ensures Valid()
      ensures index == if old(index) == -1 then -1 else 0
      ensures Contents() == old(Contents())[..index + 1]
    {
      var more := Pop();
      while more
        invariant Valid() && (old(index) == -1 ==> index == -1) && (old(index) >= 0 ==> 0 <= index <= old(index))
        invariant !more ==> index <= 0
        invariant stack[..index + 1] == old(stack[..index + 1])[..index + 1]
        decreases index + 1, more
      {
        more := Pop();
      }
    }
  }
}
