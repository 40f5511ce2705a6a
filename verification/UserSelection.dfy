/** The users picked for a new chat. */
module UserSelection {
  import opened Sequences

  datatype User = User(id: int, name: string)

  predicate Selected(users: seq<User>, id: int) {
    exists i :: 0 <= i < |users| && users[i].id == id
  }

  function OtherUser(id: int): User -> bool {
    (u: User) => u.id != id
  }

  /** `toggleUserSelection`. */
  function Toggle(users: seq<User>, u: User): seq<User> {
    if Selected(users, u.id) then Filter(OtherUser(u.id), users) else users + [u]
  }

  /** The selection after toggling `toggles` one by one from nothing. */
  function After(toggles: seq<User>): seq<User> {
    if toggles == [] then [] else Toggle(After(DropLast(toggles)), Last(toggles))
  }

  function Count(toggles: seq<User>, id: int): nat {
    if toggles == [] then 0 else Count(DropLast(toggles), id) + if Last(toggles).id == id then 1 else 0
  }

  /** Toggle `i` is the latest of its user, who was toggled an odd number of times in all. */
  predicate Stands(toggles: seq<User>, i: nat)
    requires i < |toggles|
  {
    Count(toggles, toggles[i].id) % 2 == 1 && forall j :: i < j < |toggles| ==> toggles[j].id != toggles[i].id
  }

  /** The standing toggles among the first `n`, in order. */
  function StandingUpTo(toggles: seq<User>, n: nat): seq<User>
    requires n <= |toggles|
  {
    if n == 0 then []
    else if Stands(toggles, n - 1) then StandingUpTo(toggles, n - 1) + [toggles[n - 1]]
    else StandingUpTo(toggles, n - 1)
  }

  function Standing(toggles: seq<User>): seq<User> {
    StandingUpTo(toggles, |toggles|)
  }

  lemma StandsSnoc(toggles: seq<User>, u: User, i: nat)
    requires i < |toggles|
    ensures Stands(toggles + [u], i) <==> Stands(toggles, i) && toggles[i].id != u.id
  {
    var more := toggles + [u];
    assert DropLast(more) == toggles;
    if Stands(more, i) {
      assert more[|toggles|].id != more[i].id;
      assert forall j :: i < j < |toggles| ==> more[j] == toggles[j];
    }
  }

  lemma {:induction false} StandingSnoc(toggles: seq<User>, u: User, n: nat)
    requires n <= |toggles|
    ensures StandingUpTo(toggles + [u], n) == Filter(OtherUser(u.id), StandingUpTo(toggles, n))
  {
    if n == 0 {
    } else {
      StandingSnoc(toggles, u, n - 1);
      StandsSnoc(toggles, u, n - 1);
      var front, t := StandingUpTo(toggles, n - 1), toggles[n - 1];
      assert (toggles + [u])[n - 1] == t;
      assert DropLast(front + [t]) == front;
    }
  }

  /** Among the first `n` toggles a user stands exactly when its latest toggle is there and its count is odd. */
  lemma {:induction false} StandingSelects(toggles: seq<User>, n: nat, id: int)
    requires n <= |toggles|
    requires forall j :: n <= j < |toggles| ==> toggles[j].id != id
    ensures Selected(StandingUpTo(toggles, n), id) <==> Count(toggles, id) % 2 == 1
  {
    if n == 0 {
      NeverToggled(toggles, id);
    } else {
      var front := StandingUpTo(toggles, n - 1);
      if toggles[n - 1].id == id {
        if Stands(toggles, n - 1) {
          assert StandingUpTo(toggles, n)[|front|].id == id;
        } else {
          EarlierDoesNotStand(toggles, n - 1, n - 1, id);
        }
      } else {
        StandingSelects(toggles, n - 1, id);
        assert forall i :: 0 <= i < |front| ==> StandingUpTo(toggles, n)[i] == front[i];
      }
    }
  }

  lemma {:induction false} NeverToggled(toggles: seq<User>, id: int)
    requires forall j :: 0 <= j < |toggles| ==> toggles[j].id != id
    ensures Count(toggles, id) == 0
  {
    if toggles == [] {
    } else {
      NeverToggled(DropLast(toggles), id);
    }
  }

  lemma {:induction false} EarlierDoesNotStand(toggles: seq<User>, n: nat, last: nat, id: int)
    requires n <= last < |toggles| && toggles[last].id == id
    ensures !Selected(StandingUpTo(toggles, n), id)
  {
    if n == 0 {
    } else {
      EarlierDoesNotStand(toggles, n - 1, last, id);
    }
  }

  /** From nothing, after any toggles, exactly the users toggled an odd number of times are selected,
      each once, in the order of their latest toggles. */
  lemma {:induction false} AfterIsStanding(toggles: seq<User>)
    ensures After(toggles) == Standing(toggles)
  {
    if toggles == [] {
    } else {
      var front, u := DropLast(toggles), Last(toggles);
      assert toggles == front + [u];
      AfterIsStanding(front);
      StandingSnoc(front, u, |front|);
      StandingSelects(front, |front|, u.id);
      if !Selected(After(front), u.id) {
        FilterAll(OtherUser(u.id), After(front));
      }
      LatestStandsIff(front, u);
    }
  }

  lemma {:induction false} LatestStandsIff(front: seq<User>, u: User)
    ensures Stands(front + [u], |front|) <==> Count(front, u.id) % 2 == 0
  {
    assert DropLast(front + [u]) == front;
  }

  ghost predicate IdsDistinct(users: seq<User>) {
    forall i, j :: 0 <= i < j < |users| ==> users[i].id != users[j].id
  }

  lemma {:induction false} StandingFrom(toggles: seq<User>, n: nat, k: nat) returns (i: nat)
    requires n <= |toggles| && k < |StandingUpTo(toggles, n)|
    ensures i < n && Stands(toggles, i) && toggles[i] == StandingUpTo(toggles, n)[k]
  {
    if k < |StandingUpTo(toggles, n - 1)| {
      i := StandingFrom(toggles, n - 1, k);
    } else {
      i := n - 1;
    }
  }

  lemma {:induction false} StandingDistinct(toggles: seq<User>, n: nat)
    requires n <= |toggles|
    ensures IdsDistinct(StandingUpTo(toggles, n))
  {
    if n == 0 {
    } else {
      StandingDistinct(toggles, n - 1);
      var front := StandingUpTo(toggles, n - 1);
      forall k | 0 <= k < |front| ensures front[k].id != toggles[n - 1].id {
        var i := StandingFrom(toggles, n - 1, k);
      }
    }
  }

  /** A user is selected exactly when toggled an odd number of times, and never twice. */
  lemma SelectedIffOdd(toggles: seq<User>, id: int)
    ensures Selected(After(toggles), id) <==> Count(toggles, id) % 2 == 1
    ensures IdsDistinct(After(toggles))
  {
    AfterIsStanding(toggles);
    StandingSelects(toggles, |toggles|, id);
    StandingDistinct(toggles, |toggles|);
  }

  class UserModal {
    var selectedUsers: seq<User>
    var groupName: string
    var searchText: string
    ghost var toggles: seq<User>

    /** The selection is what the toggles since it was last emptied make of it. */
    ghost predicate Valid()
      reads this
    {
      selectedUsers == After(toggles)
    }

    constructor ()
      ensures Valid() && toggles == [] && groupName == "" && searchText == ""
    {
      selectedUsers, groupName, searchText, toggles := [], "", "", [];
    }

    method ToggleUserSelection(user: User)
      requires Valid()
      modifies this`selectedUsers, this`toggles
      ensures Valid() && toggles == old(toggles) + [user]
      ensures selectedUsers == Toggle(old(selectedUsers), user)
    {
      assert DropLast(toggles + [user]) == toggles;
      toggles := toggles + [user];
      if Selected(selectedUsers, user.id) {
        selectedUsers := Filter(OtherUser(user.id), selectedUsers);
      } else {
        selectedUsers := selectedUsers + [user];
      }
    }

    method HandleClose()
      modifies this
      ensures Valid() && toggles == [] && selectedUsers == [] && groupName == "" && searchText == ""
    {
      selectedUsers, groupName, searchText, toggles := [], "", "", [];
    }

    /** `handleCreateChat`: `sent` is what is handed on, if anything. */
    method HandleCreateChat() returns (sent: Option<(seq<User>, string)>)
      requires Valid()
      modifies this
      ensures Valid()
      ensures sent.Some? <==> |old(selectedUsers)| == 1 || (|old(selectedUsers)| > 1 && !Blank(old(groupName)))
      ensures sent.Some? ==>
        sent.value == (old(selectedUsers), old(groupName)) && selectedUsers == [] && groupName == ""
      ensures sent.None? ==> selectedUsers == old(selectedUsers) && groupName == old(groupName)
    {
      if |selectedUsers| == 0 || (|selectedUsers| > 1 && Blank(groupName)) {
        return None;
      }
      sent := Some((selectedUsers, groupName));
      HandleClose();
    }
  }
}
