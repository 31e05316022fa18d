/** A reader's session: its commands keep a place in a group of the store. */
module ReaderSession {
  import opened Text
  import opened Memory
  import R = StoreRead

  class Session {
    const store: Memory
    var group: Option<string>
    var cur: int

    constructor (store: Memory)
      ensures this.store == store && Cursor() == R.Cursor(None, 0)
    {
      this.store, group, cur := store, None, 0;
    }

    ghost function Cursor(): R.Cursor
      reads this
    {
      R.Cursor(group, cur)
    }

    /** GROUP selects a group and moves to its low number. */
    method CmdGroup(name: string) returns (r: R.Reply)
      requires store.Valid()
      modifies this
      ensures (Cursor(), r) == R.GroupCommand(store.View(), old(Cursor()), name)
    {
      if name !in store.groups {
        return R.NoSuchGroup;
      }
      store.GroupsViewAt(name);
      var g := store.groups[name];
      group := Some(name);
      cur := if g.low > 0 then g.low else 0;
      return R.Selected(g.count, g.low, g.high, name);
    }

    /** LISTGROUP lists the numbers of a group in a range, and selects it. */
    method CmdListgroup(arg: string, spec: string) returns (r: R.Reply)
      requires store.Valid()
      modifies this
      ensures (Cursor(), r) == R.ListgroupCommand(store.View(), old(Cursor()), arg, spec)
    {
      hide R.InRange;
      var name := arg;
      if name == "" {
        if group == None {
          return R.NoGroupSelected;
        }
        name := group.value;
      }
      if name !in store.groups {
        return R.NoSuchGroup;
      }
      store.GroupsViewAt(name);
      var g := store.groups[name];
      group := Some(name);
      cur := if g.low > 0 then g.low else 0;
      var range := R.ParseRange(spec);
      if range == None {
        return R.SyntaxError;
      }
      var nums := store.ArticleNumbers(name, range.value.0, range.value.1);
      return R.Listed(g.count, g.low, g.high, name, nums);
    }

    /** NEXT moves to the next article. */
    method CmdNext() returns (r: R.Reply)
      requires store.Valid()
      modifies this
      ensures (Cursor(), r) == R.NextCommand(store.View(), old(Cursor()))
    {
      if group == None {
        return R.NoGroupSelected;
      }
      if cur <= 0 {
        return R.NoCurrent;
      }
      var a := store.Next(group.value, cur);
      if a == None {
        return R.NoNext;
      }
      cur := a.value.0;
      return R.Retrieved(a.value.0, a.value.1);
    }

    /** LAST moves to the previous article. */
    method CmdLast() returns (r: R.Reply)
      requires store.Valid()
      modifies this
      ensures (Cursor(), r) == R.LastCommand(store.View(), old(Cursor()))
    {
      if group == None {
        return R.NoGroupSelected;
      }
      if cur <= 0 {
        return R.NoCurrent;
      }
      var a := store.Prev(group.value, cur);
      if a == None {
        return R.NoPrevious;
      }
      cur := a.value.0;
      return R.Retrieved(a.value.0, a.value.1);
    }

    /** STAT with a number moves to that article. */
    method CmdStat(n: int) returns (r: R.Reply)
      requires store.Valid()
      modifies this
      ensures (Cursor(), r) == R.StatCommand(store.View(), old(Cursor()), n)
    {
      if group == None {
        return R.NoGroupSelected;
      }
      if n < 1 {
        return R.SyntaxError;
      }
      var id := store.GetByNumber(group.value, n);
      if id == None {
        return R.NoNumber;
      }
      cur := n;
      return R.Retrieved(n, id.value);
    }
  }
}
