# Launch/approach panel: the guarded state-transition engine

This project models the core of a small ncurses panel that steps a physical
launch/approach sequence through the states SAFE TO APPROACH, READY TO LAUNCH
and CRAWL, with a FAULT state and a sticky `lock`. It covers:

- `state.h`: the `State` enum and its ordinals (module `States`).
- `main.c`, in module `Engine`:
  - the globals `state` (`uint32_t`) and `lock`, as the class `Controller`;
  - `change_state`, mirrored step by step in `Controller.ChangeState`, including the toggle, write, toggle sequence;
  - the decision and logging part of `post_status` (`Controller.PostStatus`);
  - `log_state`, as an append to a ghost audit log.
- `main.c`, in module `Menu`: the highlight arithmetic of the input loop and the
  loop itself (`RunMenu`), driven by a finite sequence of keys.

Each method is proved against a pure function of the old state:
`ChangeStateEffect`, `PostStatusEffect`, `Session` and `Drive`. The lemmas
prove what the code promises about those functions, over one call and over
any number of calls.

The model follows the code as written. The intended design is that an illegal
request commits to FAULT and latches the lock. In the code, the illegal branch
(`main.c:24-28`) falls through into the commit tail (`main.c:30-33`). Line 31
overwrites `state` with the requested target. The two toggles at lines 30 and 32
leave `lock` set. `success` ends at 1. So:

- an illegal request ends locked in the requested state, which is FAULT only
  when FAULT was requested (`IllegalRequestFallsThrough`);
- the lock does not imply FAULT (`LockedOutsideFault`);
- the converse does hold: FAULT is reachable only under the lock (`ReachableConsistent`);
- a locked request logs nothing;
- an illegal request logs two entries, the invalid-transition message and then the label
  (`PostStatusOutcomes`), not one entry per request.

The successor `(*state + 1) % FAULT` is computed in 32-bit unsigned arithmetic
and is modelled with the wrap-around: `Successor(2^32 - 1) == 0`.

## Model

| member | source | states |
|---|---|---|
| States.Ordinal | state.h:4-9 | the value of each enumerator is its position in the declaration: SAFE_TO_APPROACH 0, READY_TO_LAUNCH 1, CRAWL 2, FAULT 3 |
| States.FromOrdinal | state.h:4-9 | a value names an enumerator exactly when it is in 0..3, and then the enumerator whose ordinal it is |
| States.OrdinalRoundTrip | state.h:4-9 | mapping an enumerator to its value and back gives the enumerator |
| States.FaultIsLast | state.h:8 | FAULT is last, with value 3, and every other state's value is strictly below it |
| Engine.Successor | main.c:24 | `(state + 1) % FAULT` in uint32 arithmetic is below FAULT, so FAULT is never the legal successor |
| Engine.SuccessorCycle | main.c:24 | on the enum values the successor is the cycle SAFE_TO_APPROACH, READY_TO_LAUNCH, CRAWL, SAFE_TO_APPROACH; from FAULT it is READY_TO_LAUNCH |
| Engine.SuccessorIsLive | main.c:24 | for every state value 0..3 the successor is `(s + 1) % 3`, a live state and not FAULT |
| Engine.SuccessorWraps | main.c:24 | the addition wraps at 2^32: the successor of 2^32 - 1 is 0, where unbounded arithmetic would give 1 |
| Engine.LockedRequestRejected | main.c:18-19 | with the lock set the call writes success 0, leaves state and lock unchanged and logs nothing |
| Engine.LegalRequestCommits | main.c:24-33 | an unlocked request for the successor ends with state = target, lock clear, success 1 and no log entry |
| Engine.IllegalRequestFallsThrough | main.c:24-33 | an unlocked request for anything else, FAULT included, logs the invalid-transition message once and ends with lock set, success 1 and state = target; the state is FAULT exactly when FAULT was requested |
| Engine.LockIsSticky | main.c:18-19 | from a locked panel, any sequence of calls leaves state and lock as they were |
| Engine.LockStaysSet | main.c:18-19 | once a run of calls has set the lock, later calls change neither state nor lock |
| Engine.ReachableConsistent | main.c:24-33 | from start-up, with targets in 0..3, every reachable state is in 0..3 and state FAULT implies the lock is set |
| Engine.FaultIsAbsorbing | main.c:18-33 | from a consistent pair in FAULT no sequence of calls changes state or lock |
| Engine.LockedOutsideFault | main.c:25-33 | one request for CRAWL from start-up leaves the panel locked in CRAWL, so the lock does not imply FAULT |
| Engine.PostStatusOutcomes | main.c:180-202 | a locked request logs nothing and shows FAULT; a legal unlocked one logs and shows its label; an illegal unlocked one logs the invalid-transition message, then its label, and shows the label |
| Engine.OutOfOrderRequestExample | main.c:180-202 | from SAFE_TO_APPROACH, unlocked, a request for CRAWL ends locked in CRAWL with two log entries and shows CRAWL |
| Engine.SessionFollowsRun | main.c:180-182 | a sequence of `post_status` calls moves state and lock exactly as the same sequence of `change_state` calls |
| Engine.LockedSessionIsSilent | main.c:195-199 | from a locked panel, any sequence of `post_status` calls appends nothing to the log and changes nothing |
| Engine.UnlockedSessionLogsLabels | main.c:195-201 | while the lock stays clear, the log is exactly the labels of the requests, one entry each, in order |
| Engine.InvalidLoggedOnce | main.c:24-28 | from an unlocked start, a sequence of requests that ends locked has logged the invalid-transition message exactly once |
| Engine.Controller.constructor | main.c:54-55 | start-up: state SAFE_TO_APPROACH, lock clear, nothing logged |
| Engine.Controller.LogState | main.c:162-172 | appends the message to the audit log and changes nothing else |
| Engine.Controller.ChangeState | main.c:17-36 | the step-by-step body, including the toggles at lines 30 and 32, leaves state, lock, success and the log as `ChangeStateEffect` says; its body asserts that the lock after line 32 equals the lock before line 30 |
| Engine.Controller.PostStatus | main.c:180-202 | calls `change_state`, then leaves state, lock, the log and the label shown as `PostStatusEffect` says |
| Menu.Up | main.c:121-126 | KEY_UP keeps the highlight in 0..4 and moves it to `(h - 1) mod 5`, from 0 to 4 |
| Menu.Down | main.c:127-132 | KEY_DOWN keeps the highlight in 0..4 and moves it to `(h + 1) mod 5`, from 4 to 0 |
| Menu.UpDownInverse | main.c:121-132 | KEY_UP and KEY_DOWN undo each other |
| Menu.Press | main.c:120-146 | one key keeps the highlight in range; Enter quits exactly on the "quit" entry and otherwise requests the highlighted entry; no other key requests anything |
| Menu.Drive | main.c:118-149 | after any keys the highlight is in range, a quit leaves the highlight on "quit", and no request is the "quit" index |
| Menu.QuitIsFinal | main.c:133-138 | once "quit" is chosen, further keys change nothing |
| Menu.MenuKeepsConsistent | main.c:118-149 | with any keys from start-up, the panel ends with a state in 0..3, and in FAULT only under the lock |
| Menu.RunMenu | main.c:118-149 | the loop ends with the highlight and quit flag of `Drive`, and the panel and log after `post_status` on exactly the requests `Drive` issues |

## Left out

- All ncurses work is left out. This covers window creation, borders, printing, colour pairs and `print_menu` (main.c:40-116, 147-158, 207-222). It is presentation only.
- Command-line and colour-mode handling is left out (main.c:57-77). It is terminal capability probing.
- The palette choice in `post_status` is left out (main.c:184-191). It only selects a colour. The label shown is modelled.
- `wgetch` is replaced by a finite sequence of keys. `RunMenu` stops when the keys run out. The source would keep polling instead.
- Engine.Controller.LogState: the timestamp, the file handling and the newline stripping are not modelled (main.c:163-171). Each call is an append of the message, and a failed `fopen` is not modelled. In the source a failed open silently drops the entry.
- The explicit `\0` inside the labels is left out. Labels are plain strings.
- `success` is a `bool` rather than a `uint8_t`, and `lock` is a `bool`. The source only ever stores 0 or 1 in them.
- `post_status` takes an `int` and passes it as a `uint32_t` target. The menu only ever passes 0..3, so `Request` is that range.
