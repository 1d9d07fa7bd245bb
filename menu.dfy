/** The input loop of `main` in main.c, without the terminal: the arrow keys
    move the highlighted menu entry with wrap-around, Enter on the last entry
    ("quit") ends the loop, and Enter on any other entry is passed to
    `post_status`. Keys arrive as a finite sequence in place of `wgetch`. */
module Menu {
  import opened Engine

  /** The index of the "quit" entry. */
  const QuitChoice: nat := NChoices - 1

  /** KEY_UP: the entry above, the last one from the top. */
  function Up(h: int): (r: int)
    requires 0 <= h < NChoices
    ensures 0 <= r < NChoices
    ensures r == (h - 1) % NChoices
  {
    if h == 0 then NChoices - 1 else h - 1
  }

  /** KEY_DOWN: the entry below, the first one from the bottom. */
  function Down(h: int): (r: int)
    requires 0 <= h < NChoices
    ensures 0 <= r < NChoices
    ensures r == (h + 1) % NChoices
  {
    if h == NChoices - 1 then 0 else h + 1
  }

  lemma UpDownInverse(h: int)
    requires 0 <= h < NChoices
    ensures Down(Up(h)) == h && Up(Down(h)) == h
  {
  }

  /** The keys the loop distinguishes: KEY_UP, KEY_DOWN, Enter (10), any other. */
  datatype Key = KeyUp | KeyDown | Enter | OtherKey

  /** The loop's state after some keys: the highlighted entry, the requests
      passed to `post_status` so far, and whether "quit" was chosen. */
  datatype Navigation = Navigation(highlight: int, requests: seq<Request>, quit: bool)

  /** One key on a loop that has not quit yet. */
  function Press(n: Navigation, k: Key): (r: Navigation)
    requires 0 <= n.highlight < NChoices && !n.quit
    ensures 0 <= r.highlight < NChoices
    ensures r.quit <==> k == Enter && n.highlight == QuitChoice
    ensures r.requests == if k == Enter && !r.quit then n.requests + [n.highlight] else n.requests
  {
    match k
    case KeyUp => n.(highlight := Up(n.highlight))
    case KeyDown => n.(highlight := Down(n.highlight))
    case Enter =>
      if n.highlight == QuitChoice then n.(quit := true)
      else n.(requests := n.requests + [n.highlight])
    case OtherKey => n
  }

  /** The loop after the keys, starting from `highlight = 0`; keys after
      "quit" is chosen are not read. */
  function Drive(keys: seq<Key>): (n: Navigation)
    ensures 0 <= n.highlight < NChoices
    ensures n.quit ==> n.highlight == QuitChoice
    ensures forall i :: 0 <= i < |n.requests| ==> n.requests[i] != QuitChoice
    ensures |n.requests| <= |keys|
    decreases |keys|
  {
    if keys == [] then Navigation(0, [], false)
    else
      var prev := Drive(keys[..|keys| - 1]);
      if prev.quit then prev else Press(prev, keys[|keys| - 1])
  }

  /** Once "quit" is chosen, further keys change nothing. */
  lemma {:induction false} QuitIsFinal(keys: seq<Key>, i: nat)
    requires i <= |keys| && Drive(keys[..i]).quit
    ensures Drive(keys) == Drive(keys[..i])
    decreases |keys| - i
  {
    if i < |keys| {
      var n := |keys| - 1;
      assert keys[..n][..i] == keys[..i];
      QuitIsFinal(keys[..n], i);
    } else {
      assert keys[..i] == keys;
    }
  }

  /** With any keys from start-up, the panel ends in a consistent pair: a
      state value of the enum, and FAULT only under the lock. */
  lemma {:induction false} MenuKeepsConsistent(keys: seq<Key>)
    ensures Consistent(Session(Initial, Drive(keys).requests).panel)
  {
    var requests := Drive(keys).requests;
    SessionFollowsRun(Initial, requests);
    ReachableConsistent(requests);
  }

  /** The input loop, from `highlight = 0` until "quit" is chosen or the keys
      run out. */
  method RunMenu(c: Controller, keys: seq<Key>) returns (highlight: int, quit: bool)
    modifies c
    ensures highlight == Drive(keys).highlight && quit == Drive(keys).quit
    ensures c.Snapshot() == Session(old(c.Snapshot()), Drive(keys).requests).panel
    ensures c.log == old(c.log) + Session(old(c.Snapshot()), Drive(keys).requests).log
  {
    ghost var start, startLog := c.Snapshot(), c.log;
    ghost var requests: seq<Request> := [];
    highlight, quit := 0, false;
    var i := 0;
    while i < |keys| && !quit
      invariant 0 <= i <= |keys|
      invariant Drive(keys[..i]) == Navigation(highlight, requests, quit)
      invariant c.Snapshot() == Session(start, requests).panel
      invariant c.log == startLog + Session(start, requests).log
    {
      assert keys[..i + 1][..i] == keys[..i];
      match keys[i] {
        case KeyUp =>
          if highlight == 0 {
            highlight := NChoices - 1;
          } else {
            highlight := highlight - 1;
          }
        case KeyDown =>
          if highlight == NChoices - 1 {
            highlight := 0;
          } else {
            highlight := highlight + 1;
          }
        case Enter =>
          var choice := highlight;
          if choice == NChoices - 1 {
            quit := true;
          } else {
            var _ := c.PostStatus(choice);
            assert (requests + [choice])[..|requests|] == requests;
            requests := requests + [choice];
          }
        case OtherKey =>
      }
      i := i + 1;
    }
    if quit {
      QuitIsFinal(keys, i);
    } else {
      assert keys[..i] == keys;
    }
  }
}
