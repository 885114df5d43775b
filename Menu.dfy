/** The hierarchical menu (src/menu.cpp).

    A `Menu` object holds its items, the selected index and its navigation
    state; an item may carry a submenu, which makes the menus a tree. Calls
    on a menu that is in a submenu are forwarded down the chain of entered
    submenus to the active menu. A button menu (ButtonMenu in the source)
    is the same class with `isButton` set: it has no items and answers
    select and enter with its press callbacks.

    The callbacks the menu invokes are not run: each call is recorded as a
    `MenuEvent`, and the methods return the events in the order the source
    makes the calls. */
module Menus {
  import opened Util

  datatype MenuState = InMenu | InSubmenu | Unknown

  /** A menu item: optional title and announcement file, optional submenu,
      optional callback. Items are never changed after construction. */
  datatype MenuItem = MenuItem(title: Option<string>, audioFile: Option<string>, submenu: Menu?, callback: Option<Handle>)

  /** One callback invocation made by the menu code. */
  datatype MenuEvent =
    | Display(callback: Handle, title: Option<string>)
    | Announce(callback: Handle, audioFile: Option<string>)
    | ItemCalled(callback: Handle)
    | Entered(callback: Handle)
    | Left(callback: Handle)
    | Pressed(callback: Handle)

  /** Next index, `i++; if (i >= n) i = 0;`. */
  function WrapNext(i: int, n: int): (j: int)
    requires 0 <= i < n
    ensures 0 <= j < n
    ensures j == (i + 1) % n
  {
    if i + 1 >= n then 0 else i + 1
  }

  /** Previous index, `i--; if (i < 0) i = n - 1;`. */
  function WrapPrev(i: int, n: int): (j: int)
    requires 0 <= i < n
    ensures 0 <= j < n
    ensures j == (i - 1) % n
  {
    if i - 1 < 0 then n - 1 else i - 1
  }

  /** Previous after next, and next after previous, restore the index. */
  lemma WrapInverse(i: int, n: int)
    requires 0 <= i < n
    ensures WrapPrev(WrapNext(i, n), n) == i
    ensures WrapNext(WrapPrev(i, n), n) == i
  {
  }

  /** k presses of "next" from i. */
  function NextTimes(i: int, n: int, k: nat): (j: int)
    requires 0 <= i < n
    ensures 0 <= j < n
  {
    if k == 0 then i else WrapNext(NextTimes(i, n, k - 1), n)
  }

  /** Within one turn, k presses advance the index by k, wrapping once
      past the end. */
  lemma {:induction false} NextTimesWithinTurn(i: int, n: int, k: nat)
    requires 0 <= i < n && k <= n
    ensures NextTimes(i, n, k) == if i + k < n then i + k else i + k - n
  {
    if k > 0 {
      NextTimesWithinTurn(i, n, k - 1);
    }
  }

  /** n presses of "next" go all the way round. */
  lemma NextTimesFullCircle(i: int, n: int)
    requires 0 <= i < n
    ensures NextTimes(i, n, n) == i
  {
    NextTimesWithinTurn(i, n, n);
  }

  /** Position of the NULL that closes an item list. */
  function Terminator(list: seq<Option<MenuItem>>): (n: nat)
    requires None in list
    ensures n < |list| && list[n].None?
    ensures forall j :: 0 <= j < n ==> list[j].Some?
  {
    if list[0].None? then 0 else Terminator(list[1..]) + 1
  }

  /** The items before the terminator. */
  function Entries(list: seq<Option<MenuItem>>): (r: seq<MenuItem>)
    requires forall j :: 0 <= j < |list| ==> list[j].Some?
    ensures |r| == |list|
    ensures forall j :: 0 <= j < |list| ==> r[j] == list[j].value
  {
    if list == [] then [] else [list[0].value] + Entries(list[1..])
  }

  lemma EntriesAre(list: seq<Option<MenuItem>>, count: nat, items: seq<MenuItem>)
    requires count <= |list| && |items| == count
    requires forall k :: 0 <= k < count ==> list[k].Some? && items[k] == list[k].value
    ensures items == Entries(list[..count])
  {
  }

  /** A button press: the press callback, if any. */
  function PressEvents(cb: Option<Handle>): seq<MenuEvent>
  {
    if cb.Some? then [Pressed(cb.value)] else []
  }

  /** MenuItem::call: the item's callback, if any. */
  function CallEvents(item: MenuItem): seq<MenuEvent>
  {
    if item.callback.Some? then [ItemCalled(item.callback.value)] else []
  }

  /** The counting loop of setItems: the number of entries before the NULL. */
  method CountEntries(list: seq<Option<MenuItem>>) returns (count: int)
    requires None in list
    ensures 0 <= count < |list| && list[count].None?
    ensures forall i :: 0 <= i < count ==> list[i].Some?
  {
    count := 0;
    while list[count].Some?
      invariant 0 <= count <= Terminator(list)
      decreases Terminator(list) - count
    {
      count := count + 1;
    }
  }

  class Menu {
    const isButton: bool
    const prevPress: Option<Handle>
    const nextPress: Option<Handle>
    const enterPress: Option<Handle>

    var numItems: int
    var selectedItem: int
    var state: MenuState
    var items: seq<MenuItem>
    var displayCallback: Option<Handle>
    var audioCallback: Option<Handle>
    var enterCallback: Option<Handle>
    var leaveCallback: Option<Handle>

    ghost var Repr: set<object>

    /** A tree: every submenu is valid, owned by this menu, and the
        submenus of different items are disjoint. A button menu has one
        nominal item and no item list and is never in a submenu; a
        submenu state names an item that has a submenu. */
    ghost predicate Valid()
      reads this, Repr
      decreases Repr
    {
      this in Repr
      && 0 <= selectedItem
      && (isButton ==> numItems == 1 && selectedItem == 0 && items == [] && state != InSubmenu)
      && (!isButton ==> numItems == |items| && (selectedItem < numItems || selectedItem == 0))
      && (state == InSubmenu ==> selectedItem < |items| && items[selectedItem].submenu != null)
      && (forall i :: 0 <= i < |items| && items[i].submenu != null ==>
            items[i].submenu in Repr && items[i].submenu.Repr <= Repr
            && this !in items[i].submenu.Repr && items[i].submenu.Valid())
      && (forall i, j :: 0 <= i < j < |items| && items[i].submenu != null && items[j].submenu != null ==>
            items[i].submenu.Repr !! items[j].submenu.Repr)
    }

    /** The menu that calls reach: follow the entered submenus down. */
    ghost function Active(): (a: Menu)
      reads this, Repr
      requires Valid()
      decreases Repr
      ensures a in Repr && a.Valid() && a.state != InSubmenu && a.Repr <= Repr
    {
      if state == InSubmenu then items[selectedItem].submenu.Active() else this
    }

    /** This menu and the entered submenus below it, outermost first. */
    ghost function Chain(): (c: seq<Menu>)
      reads this, Repr
      requires Valid()
      decreases Repr
      ensures |c| >= 1 && c[0] == this && c[|c| - 1] == Active()
    {
      if state == InSubmenu then [this] + items[selectedItem].submenu.Chain() else [this]
    }

    /** The display and audio callbacks for `item`, as each select, enter
        and leave runs them. */
    function UiEvents(item: MenuItem): (e: seq<MenuEvent>)
      reads this
      ensures |e| == (if displayCallback.Some? then 1 else 0) + (if audioCallback.Some? then 1 else 0)
      ensures displayCallback.Some? ==> e[0] == Display(displayCallback.value, item.title)
      ensures audioCallback.Some? ==> e[|e| - 1] == Announce(audioCallback.value, item.audioFile)
    {
      (if displayCallback.Some? then [Display(displayCallback.value, item.title)] else [])
      + (if audioCallback.Some? then [Announce(audioCallback.value, item.audioFile)] else [])
    }

    /** Menu(): no items, in this menu. (The source leaves selectedItem and
        the callbacks uninitialised; here they start at 0 and NULL.) */
    constructor ()
      ensures Valid() && fresh(Repr) && !isButton
      ensures numItems == 0 && items == [] && state == InMenu && selectedItem == 0
      ensures displayCallback.None? && audioCallback.None? && enterCallback.None? && leaveCallback.None?
    {
      isButton := false;
      prevPress, nextPress, enterPress := None, None, None;
      numItems := 0;
      selectedItem := 0;
      state := InMenu;
      items := [];
      displayCallback, audioCallback, enterCallback, leaveCallback := None, None, None, None;
      Repr := {this};
    }

    /** ButtonMenu(prev, next, enter): one nominal item, index 0, in this menu. */
    constructor Button(prev: Option<Handle>, next: Option<Handle>, enter: Option<Handle>)
      ensures Valid() && fresh(Repr) && isButton
      ensures prevPress == prev && nextPress == next && enterPress == enter
      ensures numItems == 1 && selectedItem == 0 && state == InMenu
      ensures displayCallback.None? && audioCallback.None? && enterCallback.None? && leaveCallback.None?
    {
      isButton := true;
      prevPress, nextPress, enterPress := prev, next, enter;
      numItems := 1;
      selectedItem := 0;
      state := InMenu;
      items := [];
      displayCallback, audioCallback, enterCallback, leaveCallback := None, None, None, None;
      Repr := {this};
    }

    method SetDisplayUpdateCallback(callback: Option<Handle>)
      requires Valid()
      modifies this`displayCallback
      ensures Valid() && displayCallback == callback
    {
      displayCallback := callback;
    }

    method SetAudioAnnounceCallback(callback: Option<Handle>)
      requires Valid()
      modifies this`audioCallback
      ensures Valid() && audioCallback == callback
    {
      audioCallback := callback;
    }

    method SetEnterCallback(callback: Option<Handle>)
      requires Valid()
      modifies this`enterCallback
      ensures Valid() && enterCallback == callback
    {
      enterCallback := callback;
    }

    method SetLeaveCallback(callback: Option<Handle>)
      requires Valid()
      modifies this`leaveCallback
      ensures Valid() && leaveCallback == callback
    {
      leaveCallback := callback;
    }

    /** Used by setItems on every new submenu. */
    method MarkUnknown()
      requires Valid()
      modifies this`state
      ensures Valid() && state == Unknown
    {
      state := Unknown;
    }

    /** One round of setItems' copy loop: append entry i and put its
        submenu, if any, into the Unknown state. */
    method AdoptEntry(list: seq<Option<MenuItem>>, i: int, ghost owned: set<object>) returns (ghost owned': set<object>)
      requires None in list && 0 <= i < Terminator(list) && |items| == i
      requires forall i, j ::
                 (0 <= i < j < Terminator(list)
                  && list[i].value.submenu != null && list[j].value.submenu != null) ==>
                 list[i].value.submenu.Repr !! list[j].value.submenu.Repr
      requires forall k :: 0 <= k < Terminator(list) && list[k].value.submenu != null ==>
                 list[k].value.submenu.Valid() && this !in list[k].value.submenu.Repr
      modifies this`items, if list[i].value.submenu != null then {list[i].value.submenu} else {}
      ensures items == old(items) + [list[i].value]
      ensures owned' == owned + if list[i].value.submenu != null then list[i].value.submenu.Repr else {}
      ensures forall k :: 0 <= k < Terminator(list) && list[k].value.submenu != null ==>
                list[k].value.submenu.Repr == old(list[k].value.submenu.Repr)
                && list[k].value.submenu.Valid()
                && (k != i ==> list[k].value.submenu.state == old(list[k].value.submenu.state))
      ensures list[i].value.submenu != null ==> list[i].value.submenu.state == Unknown
    {
      var item := list[i].value;
      items := items + [item];
      var submenu := item.submenu;
      owned' := owned;
      if submenu != null {
        assert submenu in submenu.Repr;
        forall k | 0 <= k < Terminator(list) && k != i && list[k].value.submenu != null
          ensures submenu !in list[k].value.submenu.Repr
        {
          if k < i {
            assert list[k].value.submenu.Repr !! list[i].value.submenu.Repr;
          } else {
            assert list[i].value.submenu.Repr !! list[k].value.submenu.Repr;
          }
        }
        submenu.MarkUnknown();
        owned' := owned + submenu.Repr;
      }
    }

    /** setItems: counts the entries before the NULL, takes exactly those,
        puts every submenu among them into the Unknown state and selects
        index 0. The navigation state of this menu is kept, so a menu in a
        submenu needs a first item with a submenu. */
    method SetItems(list: seq<Option<MenuItem>>)
      requires Valid() && !isButton
      requires None in list
      requires forall i :: 0 <= i < Terminator(list) && list[i].value.submenu != null ==>
                 list[i].value.submenu.Valid() && this !in list[i].value.submenu.Repr
      requires forall i, j ::
                 (0 <= i < j < Terminator(list)
                  && list[i].value.submenu != null && list[j].value.submenu != null) ==>
                 list[i].value.submenu.Repr !! list[j].value.submenu.Repr
      requires state == InSubmenu ==> list[0].Some? && list[0].value.submenu != null
      modifies this, set i | 0 <= i < Terminator(list) && list[i].value.submenu != null :: list[i].value.submenu
      ensures Valid()
      ensures numItems == Terminator(list) && items == Entries(list[..Terminator(list)])
      ensures selectedItem == 0 && state == old(state)
      ensures forall i :: 0 <= i < |items| && items[i].submenu != null ==> items[i].submenu.state == Unknown
      ensures displayCallback == old(displayCallback) && audioCallback == old(audioCallback)
      ensures enterCallback == old(enterCallback) && leaveCallback == old(leaveCallback)
    {
      var count := CountEntries(list);
      // the source resets the selection after the copy loop, which does not read it
      selectedItem := 0;
      numItems := count;
      CopyEntries(list, count);
    }

    /** The copy loop of setItems: takes the entries before the NULL and puts
        every submenu among them into the Unknown state. */
    method CopyEntries(list: seq<Option<MenuItem>>, count: int)
      requires None in list && count == Terminator(list)
      requires forall i :: 0 <= i < count && list[i].value.submenu != null ==>
                 list[i].value.submenu.Valid() && this !in list[i].value.submenu.Repr
      requires forall i, j ::
                 (0 <= i < j < count
                  && list[i].value.submenu != null && list[j].value.submenu != null) ==>
                 list[i].value.submenu.Repr !! list[j].value.submenu.Repr
      modifies this`items, this`Repr, set i | 0 <= i < count && list[i].value.submenu != null :: list[i].value.submenu
      ensures items == Entries(list[..count]) && |items| == count && this in Repr
      ensures forall k :: 0 <= k < count ==> items[k] == list[k].value
      ensures forall k :: 0 <= k < count && list[k].value.submenu != null ==>
                list[k].value.submenu.Repr == old(list[k].value.submenu.Repr)
                && list[k].value.submenu.Valid() && list[k].value.submenu.state == Unknown
                && list[k].value.submenu in Repr && list[k].value.submenu.Repr <= Repr
    {
      items := [];
      ghost var owned: set<object> := {this};
      var i := 0;
      while i < count
        invariant 0 <= i <= count && |items| == i
        invariant forall k :: 0 <= k < i ==> items[k] == list[k].value
        invariant this in owned
        invariant forall k :: 0 <= k < count && list[k].value.submenu != null ==>
                    list[k].value.submenu.Repr == old(list[k].value.submenu.Repr)
                    && list[k].value.submenu.Valid()
        invariant forall k :: 0 <= k < i && list[k].value.submenu != null ==>
                    list[k].value.submenu.state == Unknown
                    && list[k].value.submenu in owned && list[k].value.submenu.Repr <= owned
      {
        owned := AdoptEntry(list, i, owned);
        i := i + 1;
      }
      EntriesAre(list, count, items);
      Repr := owned;
    }

    /** getItem: the item at `index`, or NULL outside [0, numItems). */
    function GetItem(index: int): (r: Option<MenuItem>)
      reads this
      requires !isButton && numItems == |items|
      ensures r.None? <==> index < 0 || index >= numItems
      ensures r.Some? ==> r.value == items[index]
    {
      if index < 0 || index >= numItems then None else Some(items[index])
    }

    /** The active menu can move its selection: a standard menu in this
        menu needs at least one item (the source indexes its item array). */
    ghost predicate SelectionDefined()
      reads this, Repr
      requires Valid()
    {
      var a := Active();
      !a.isButton && a.state == InMenu ==> a.numItems > 0
    }

    /** The UI callbacks that every menu from this one down to the active
        one runs for `item`, innermost first: each level runs its own
        callbacks as the forwarded call returns. */
    ghost function Echo(item: MenuItem): seq<MenuEvent>
      reads this, Repr
      requires Valid()
      decreases Repr
    {
      (if state == InSubmenu then items[selectedItem].submenu.Echo(item) else []) + UiEvents(item)
    }

    /** selectNextItem: the active menu advances its selection, wrapping at
        the end, and every menu on the way reports the new item; a button
        only runs its next callback; a menu in the Unknown state does nothing. */
    method SelectNextItem() returns (item: Option<MenuItem>, events: seq<MenuEvent>)
      requires Valid() && SelectionDefined()
      modifies Active()
      ensures Valid() && Repr == old(Repr)
      ensures Active() == old(Active()) && Chain() == old(Chain())
      ensures var a := old(Active());
              a.state == old(a.state) && SameContents(a)
              && (a.isButton ==> a.selectedItem == old(a.selectedItem))
      ensures var a := old(Active());
              a.isButton ==> item.None? && events == PressEvents(a.nextPress)
      ensures var a := old(Active());
              !a.isButton && old(a.state) == InMenu ==>
                a.selectedItem == WrapNext(old(a.selectedItem), old(a.numItems))
                && item == Some(a.items[a.selectedItem]) && events == old(Echo(item.value))
      ensures var a := old(Active());
              !a.isButton && old(a.state) == Unknown ==>
                item.None? && events == [] && a.selectedItem == old(a.selectedItem)
      decreases Repr, 1
    {
      if isButton {
        return None, PressEvents(nextPress);
      }
      if state == InSubmenu {
        item, events := ForwardNext();
      } else {
        item, events := None, [];
        if state == InMenu {
          selectedItem := selectedItem + 1;
          if selectedItem >= numItems {
            selectedItem := 0;
          }
          item := Some(items[selectedItem]);
        }
        if item.Some? {
          events := events + UiEvents(item.value);
        }
      }
    }

    /** The forwarding branch of SelectNextItem: the call goes to the selected
        item's submenu and this menu then runs its own UI callbacks. */
    method ForwardNext() returns (item: Option<MenuItem>, events: seq<MenuEvent>)
      requires Valid() && SelectionDefined() && state == InSubmenu
      modifies Active()
      ensures Valid() && Repr == old(Repr)
      ensures Active() == old(Active()) && Chain() == old(Chain())
      ensures var a := old(Active());
              a.state == old(a.state) && SameContents(a)
              && (a.isButton ==> a.selectedItem == old(a.selectedItem))
      ensures var a := old(Active());
              a.isButton ==> item.None? && events == PressEvents(a.nextPress)
      ensures var a := old(Active());
              !a.isButton && old(a.state) == InMenu ==>
                a.selectedItem == WrapNext(old(a.selectedItem), old(a.numItems))
                && item == Some(a.items[a.selectedItem]) && events == old(Echo(item.value))
      ensures var a := old(Active());
              !a.isButton && old(a.state) == Unknown ==>
                item.None? && events == [] && a.selectedItem == old(a.selectedItem)
      decreases Repr, 0
    {
      var submenu := items[selectedItem].submenu;
      item, events := submenu.SelectNextItem();
      SelectedChangeKeepsValid(this);
      if item.Some? {
        events := events + UiEvents(item.value);
      }
    }

    /** selectPreviousItem: as selectNextItem, moving back and wrapping to
        the last item. */
    method SelectPreviousItem() returns (item: Option<MenuItem>, events: seq<MenuEvent>)
      requires Valid() && SelectionDefined()
      modifies Active()
      ensures Valid() && Repr == old(Repr)
      ensures Active() == old(Active()) && Chain() == old(Chain())
      ensures var a := old(Active());
              a.state == old(a.state) && SameContents(a)
              && (a.isButton ==> a.selectedItem == old(a.selectedItem))
      ensures var a := old(Active());
              a.isButton ==> item.None? && events == PressEvents(a.prevPress)
      ensures var a := old(Active());
              !a.isButton && old(a.state) == InMenu ==>
                a.selectedItem == WrapPrev(old(a.selectedItem), old(a.numItems))
                && item == Some(a.items[a.selectedItem]) && events == old(Echo(item.value))
      ensures var a := old(Active());
              !a.isButton && old(a.state) == Unknown ==>
                item.None? && events == [] && a.selectedItem == old(a.selectedItem)
      decreases Repr, 1
    {
      if isButton {
        return None, PressEvents(prevPress);
      }
      if state == InSubmenu {
        item, events := ForwardPrevious();
      } else {
        item, events := None, [];
        if state == InMenu {
          selectedItem := selectedItem - 1;
          if selectedItem < 0 {
            selectedItem := numItems - 1;
          }
          item := Some(items[selectedItem]);
        }
        if item.Some? {
          events := events + UiEvents(item.value);
        }
      }
    }

    /** The forwarding branch of SelectPreviousItem: the call goes to the selected
        item's submenu and this menu then runs its own UI callbacks. */
    method ForwardPrevious() returns (item: Option<MenuItem>, events: seq<MenuEvent>)
      requires Valid() && SelectionDefined() && state == InSubmenu
      modifies Active()
      ensures Valid() && Repr == old(Repr)
      ensures Active() == old(Active()) && Chain() == old(Chain())
      ensures var a := old(Active());
              a.state == old(a.state) && SameContents(a)
              && (a.isButton ==> a.selectedItem == old(a.selectedItem))
      ensures var a := old(Active());
              a.isButton ==> item.None? && events == PressEvents(a.prevPress)
      ensures var a := old(Active());
              !a.isButton && old(a.state) == InMenu ==>
                a.selectedItem == WrapPrev(old(a.selectedItem), old(a.numItems))
                && item == Some(a.items[a.selectedItem]) && events == old(Echo(item.value))
      ensures var a := old(Active());
              !a.isButton && old(a.state) == Unknown ==>
                item.None? && events == [] && a.selectedItem == old(a.selectedItem)
      decreases Repr, 0
    {
      var submenu := items[selectedItem].submenu;
      item, events := submenu.SelectPreviousItem();
      SelectedChangeKeepsValid(this);
      if item.Some? {
        events := events + UiEvents(item.value);
      }
    }

    /** Every menu that enterItem would visit in this menu has an item. */
    ghost predicate EnterDefined()
      reads this, Repr
      requires Valid()
      decreases Repr
    {
      if isButton then true
      else if state == InSubmenu then items[selectedItem].submenu.EnterDefined()
      else if state == InMenu then
        numItems > 0 && (items[selectedItem].submenu != null ==> items[selectedItem].submenu.EnterDefined())
      else true
    }

    /** The menus that enterItem switches into the submenu state: the active
        menu if its selected item has a submenu, and so on down, because the
        call is forwarded into the submenu just entered. */
    ghost function EnterPath(): (p: set<Menu>)
      reads this, Repr
      requires Valid() && EnterDefined()
      decreases Repr
      ensures p <= Repr
    {
      if isButton then {}
      else if state == InSubmenu then items[selectedItem].submenu.EnterPath()
      else if state == InMenu && items[selectedItem].submenu != null then
        {this} + items[selectedItem].submenu.EnterPath()
      else {}
    }

    /** The callbacks enterItem runs: the item's own callback, then for an
        item with a submenu the submenu's enter callback and what entering
        inside the submenu runs; a button runs its enter callback. */
    ghost function EnterEvents(): seq<MenuEvent>
      reads this, Repr
      requires Valid() && EnterDefined()
      decreases Repr
    {
      if isButton then PressEvents(enterPress)
      else if state == InSubmenu then items[selectedItem].submenu.EnterEvents()
      else if state == InMenu then
        var item := items[selectedItem];
        CallEvents(item)
        + if item.submenu != null then
            (if item.submenu.enterCallback.Some? then [Entered(item.submenu.enterCallback.value)] else [])
            + item.submenu.EnterEvents()
          else []
      else []
    }

    /** enterItem: always returns NULL (every path ends in a menu that
        returns NULL, so the UI update after the forwarding never runs);
        the menus on the enter path move into their submenus. */
    method EnterItem() returns (r: Menu?, events: seq<MenuEvent>)
      requires Valid() && EnterDefined()
      modifies EnterPath()
      ensures Valid() && Repr == old(Repr)
      ensures r == null
      ensures events == old(EnterEvents())
      ensures forall m :: m in old(EnterPath()) ==>
                m.state == InSubmenu && m.selectedItem == old(m.selectedItem) && SameContents(m)
      decreases Repr, 2
    {
      if isButton {
        return null, PressEvents(enterPress);
      }
      r, events := null, [];
      if state == InMenu {
        r, events := EnterHere();
      } else if state == InSubmenu {
        r, events := ForwardEnter();
      }
    }

    /** The branch of enterItem for a standard menu in this-menu state: run
        the item's callback; for an item with a submenu switch into it, run
        its enter callback and forward the call into the submenu just entered
        (the source's second `if`). The switch of this menu's state is written
        after the forwarded call: the forwarded call only touches the
        submenu's objects, so the order is not observable here. */
    method EnterHere() returns (r: Menu?, events: seq<MenuEvent>)
      requires Valid() && EnterDefined() && state == InMenu && !isButton
      modifies EnterPath()
      ensures Valid() && Repr == old(Repr)
      ensures r == null
      ensures events == old(EnterEvents())
      ensures forall m :: m in old(EnterPath()) ==>
                m.state == InSubmenu && m.selectedItem == old(m.selectedItem) && SameContents(m)
      decreases Repr, 1
    {
      r := null;
      var item := items[selectedItem];
      events := CallEvents(item);
      var submenu := item.submenu;
      if submenu != null {
        ghost var below := submenu.EnterPath();
        ghost var belowEvents := submenu.EnterEvents();
        ghost var called := events;
        ghost var entered := if submenu.enterCallback.Some? then [Entered(submenu.enterCallback.value)] else [];
        assert EnterPath() == {this} + below;
        assert EnterEvents() == called + (entered + belowEvents);
        if submenu.enterCallback.Some? {
          events := events + [Entered(submenu.enterCallback.value)];
        } else {
          assert events + entered == events;
        }
        var more;
        r, more := submenu.EnterItem();
        state := InSubmenu;
        SelectedChangeKeepsValid(this);
        events := events + more;
        Associative(called, entered, belowEvents);
      }
    }

    /** The forwarding branch of enterItem for a menu already in a submenu. */
    method ForwardEnter() returns (r: Menu?, events: seq<MenuEvent>)
      requires Valid() && EnterDefined() && state == InSubmenu
      modifies EnterPath()
      ensures Valid() && Repr == old(Repr)
      ensures r == null
      ensures events == old(EnterEvents())
      ensures forall m :: m in old(EnterPath()) ==>
                m.state == InSubmenu && m.selectedItem == old(m.selectedItem) && SameContents(m)
      decreases Repr, 0
    {
      var mySubmenu := items[selectedItem].submenu;
      assert EnterPath() == mySubmenu.EnterPath();
      assert EnterEvents() == mySubmenu.EnterEvents();
      r, events := mySubmenu.EnterItem();
      SelectedChangeKeepsValid(this);
    }

    /** What leaveItem returns: NULL unless in a submenu; otherwise the
        menu directly above the active one. */
    ghost function LeaveTarget(): (t: Menu?)
      reads this, Repr
      requires Valid()
      decreases Repr
      ensures state != InSubmenu <==> t == null
      ensures t != null ==> t in Repr && !t.isButton && 0 < |t.items|
    {
      if state != InSubmenu then null
      else
        var submenu := items[selectedItem].submenu;
        if submenu.state != InSubmenu then this else submenu.LeaveTarget()
    }

    /** The objects leaveItem changes: the active menu and the one above it. */
    ghost function LeaveFrame(): (f: set<Menu>)
      reads this, Repr
      requires Valid()
      decreases Repr
      ensures f <= Repr
    {
      if state != InSubmenu then {this}
      else
        var submenu := items[selectedItem].submenu;
        if submenu.state != InSubmenu then {this, submenu} else submenu.LeaveFrame()
    }

    /** The callbacks leaveItem runs: the left submenu's leave callback and
        the UI callbacks of the menu it returns to for its selected item;
        every menu further up then reports the first item of that menu. */
    ghost function LeaveEvents(): seq<MenuEvent>
      reads this, Repr
      requires Valid()
      decreases Repr
    {
      if state != InSubmenu then []
      else
        var submenu := items[selectedItem].submenu;
        if submenu.state != InSubmenu then
          (if submenu.leaveCallback.Some? then [Left(submenu.leaveCallback.value)] else [])
          + UiEvents(items[selectedItem])
        else
          var t := submenu.LeaveTarget();
          submenu.LeaveEvents() + UiEvents(t.items[0])
    }

    /** leaveItem: the active menu, if it is in this menu, goes to the
        Unknown state with index 0; the menu above it returns to this-menu
        state; the result is that menu (NULL when there is none). */
    method LeaveItem() returns (r: Menu?, events: seq<MenuEvent>)
      requires Valid()
      modifies LeaveFrame()
      ensures Valid() && Repr == old(Repr)
      ensures r == old(LeaveTarget())
      ensures events == old(LeaveEvents())
      ensures var a := old(Active());
              if old(a.state) == InMenu then a.state == Unknown && a.selectedItem == 0
              else a.state == Unknown && a.selectedItem == old(a.selectedItem)
      ensures var a := old(Active()); a.leaveCallback == old(a.leaveCallback)
      ensures forall m :: m in old(LeaveFrame()) ==> SameContents(m)
      ensures r != null ==> r.state == InMenu && r.selectedItem == old(r.selectedItem)
                            && !r.isButton && 0 < r.numItems == |r.items| && r.items == old(r.items)
      decreases Repr, 1
    {
      if state == InMenu {
        state := Unknown;
        selectedItem := 0;
      }
      r, events := null, [];
      if state == InSubmenu {
        r, events := ForwardLeave();
      }
    }

    /** The submenu branch of leaveItem: the call goes to the selected item's
        submenu; if that one was the active menu this menu returns to its own
        state, runs the submenu's leave callback and reports its selected
        item, otherwise it reports the first item of the menu returned. */
    method ForwardLeave() returns (r: Menu?, events: seq<MenuEvent>)
      requires Valid() && state == InSubmenu
      modifies LeaveFrame()
      ensures Valid() && Repr == old(Repr)
      ensures r == old(LeaveTarget())
      ensures events == old(LeaveEvents())
      ensures var a := old(Active());
              if old(a.state) == InMenu then a.state == Unknown && a.selectedItem == 0
              else a.state == Unknown && a.selectedItem == old(a.selectedItem)
      ensures var a := old(Active()); a.leaveCallback == old(a.leaveCallback)
      ensures forall m :: m in old(LeaveFrame()) ==> SameContents(m)
      ensures r != null ==> r.state == InMenu && r.selectedItem == old(r.selectedItem)
                            && !r.isButton && 0 < r.numItems == |r.items| && r.items == old(r.items)
      decreases Repr, 0
    {
      var item: MenuItem;
      var submenu := items[selectedItem].submenu;
      var newMenu;
      ghost var below := submenu.LeaveFrame();
      assert LeaveFrame() == if submenu.state != InSubmenu then {this, submenu} else below;
      newMenu, events := submenu.LeaveItem();
      SelectedChangeKeepsValid(this);
      if newMenu == null {
        ReturnFromSelected();
        item := items[selectedItem];
        if submenu.leaveCallback.Some? {
          events := events + [Left(submenu.leaveCallback.value)];
        }
      } else {
        item := newMenu.GetItem(0).value;
      }
      events := events + UiEvents(item);
      r := if newMenu != null then newMenu else this;
      assert Valid();
    }

    /** Moves a standard menu out of the submenu of its selected item. */
    method ReturnFromSelected()
      requires Valid() && state == InSubmenu
      modifies this`state
      ensures Valid() && state == InMenu
    {
      state := InMenu;
    }
  }

  /** The menu kept its items, its callbacks and its objects. */
  twostate predicate SameContents(m: Menu)
    reads m
  {
    && m.numItems == old(m.numItems) && m.items == old(m.items) && m.Repr == old(m.Repr)
    && m.displayCallback == old(m.displayCallback) && m.audioCallback == old(m.audioCallback)
    && m.enterCallback == old(m.enterCallback) && m.leaveCallback == old(m.leaveCallback)
  }

  /** After setItems(list), getItem(k) is the list's own entry for every k
      up to the terminating NULL, that NULL included, and NULL elsewhere. */
  lemma GetItemFollowsList(m: Menu, list: seq<Option<MenuItem>>, k: int)
    requires None in list && !m.isButton
    requires m.numItems == Terminator(list) && m.items == Entries(list[..Terminator(list)])
    ensures 0 <= k <= Terminator(list) ==> m.GetItem(k) == list[k]
    ensures !(0 <= k <= Terminator(list)) ==> m.GetItem(k).None?
  {
  }

  /** A menu in a submenu stays valid when only the objects of that submenu
      changed and the submenu is valid again over the same objects. */
  twostate lemma SelectedChangeKeepsValid(p: Menu)
    requires old(p.Valid()) && p.state == InSubmenu
    requires p.items == old(p.items) && p.selectedItem == old(p.selectedItem)
    requires p.numItems == old(p.numItems) && p.Repr == old(p.Repr)
    requires p.selectedItem < |p.items| && p.items[p.selectedItem].submenu != null
    requires p.items[p.selectedItem].submenu.Repr == old(p.items[p.selectedItem].submenu.Repr)
    requires p.items[p.selectedItem].submenu.Valid()
    requires forall o :: o in old(p.Repr) && o !in old(p.items[p.selectedItem].submenu.Repr) && o != p ==> unchanged(o)
    ensures p.Valid()
  {
    var c := p.items[p.selectedItem].submenu;
    forall i | 0 <= i < |p.items| && p.items[i].submenu != null && i != p.selectedItem
      ensures p.items[i].submenu.Valid()
    {
      var d := p.items[i].submenu;
      assert old(d.Valid()) && old(d.Repr) !! old(c.Repr);
      assert d != p && unchanged(d);
      assert unchanged(old(d.Repr));
    }
  }
}
