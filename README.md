# LED device activity trigger: the device-to-trigger registry

This project models the registry in `drivers/leds/trigger/ledtrig-device.c`. A driver calls `ledtrig_dev_add(dev)` to get an LED trigger named `dev-<major>:<minor>` for a device. The registry keeps one entry `{name, dev, trig}` per device in the global list `devs_list`. `ledtrig_dev_activity(dev)` blinks that device's trigger once, for 30 ms on and 30 ms off. `ledtrig_dev_del(dev)` removes the entry, and `ledtrig_dev_remove_all()` drains the list at module exit.

Layout:

- `wrappers.dfy`: the `Option` type. It stands in for a pointer that may be NULL.
- `dev_name.dfy` (module `DevName`): a device as a `(major, minor)` pair, and the name `snprintf` writes into the 20-byte `name` buffer (at most 19 characters). `ParseName` reads a name back, and the lemmas prove the round trip.
- `ledtrig_device.dfy` (module `LedtrigDevice`):
  - the entry and the handle types;
  - a ghost log of calls into the LED trigger core (`Register`, `Unregister`, `Fire`);
  - the list operations as functions on a sequence, with their lemmas;
  - the class `Registry` mirroring the C functions;
  - a few client methods that walk through concrete call sequences.

`Registry.devs` is `devs_list`, head first. It is a `seq<Entry>` that each operation reassigns. `Registry.Valid()` is the invariant every operation keeps. It has three parts:

- no two entries share a device;
- every entry's name is derived from its device;
- the handles passed to `Register` in the log, counted with repetitions, are exactly the handles passed to `Unregister` plus the handles the linked entries hold. So every linked entry's trigger was registered and not yet unregistered, and every registration not yet undone belongs to a linked entry.

Things the model turns into parameters:

- Whether `down_read_trylock` succeeded is the `lockAcquired` input of `Activity`.
- Whether `kzalloc` succeeded is the `allocOk` input of `Add`.
- The trigger pointer that `led_trigger_register_simple` writes back is the `registered` input of `Add`. It may be `Null`; the registry never looks at it.

Two behaviours of the code are kept as written:

- `list_add` links a new entry at the head, so the list runs newest first rather than in insertion order.
- The entry is linked before the trigger is registered, and the registration result is never checked. So an entry stays linked even when the LED core handed back `Null`.

Name truncation: `dev-%u:%u` exceeds 19 characters only when the major and minor together have more than 14 digits. That never happens for a 12-bit major and a 20-bit minor. `NameRoundTrip` proves the name is exact and can be read back whenever both numbers are below 10^7. A major of ten digits, which a 32-bit `%u` can print, leaves room for only four digits of the minor. `TruncationMergesMinors` proves that two minors starting with the same four digits then give the same name, and `TruncationExample` shows this for 4294967295:10000 and 4294967295:10001.

## Model

| member | source | states |
|---|---|---|
| `DevName.Digits` | drivers/leds/trigger/ledtrig-device.c:71-72 | `%u` rendering: at least one character, only decimal digits, no leading zero for values of 10 or more |
| `DevName.DecimalRoundTrip` | drivers/leds/trigger/ledtrig-device.c:71-72 | reading the printed digits back gives the number |
| `DevName.TrigName` | drivers/leds/trigger/ledtrig-device.c:71-72 | the stored name is the `dev-<major>:<minor>` expansion cut to at most MAX_NAME_LEN - 1 characters: its length is the smaller of the two, and it is a prefix of the expansion |
| `DevName.FullNameRoundTrip` | drivers/leds/trigger/ledtrig-device.c:71-72 | the untruncated expansion parses back to the same device |
| `DevName.NameRoundTrip` | drivers/leds/trigger/ledtrig-device.c:71-72 | when major and minor are both below 10^7, snprintf cuts nothing and the name parses back to the device |
| `DevName.NamesDistinct` | drivers/leds/trigger/ledtrig-device.c:71-72 | distinct devices in that range get distinct trigger names |
| `DevName.TruncationMergesMinors` | drivers/leds/trigger/ledtrig-device.c:71-72 | with a ten-digit major, the 19 kept characters hold only the first four digits of the minor, so two minors that agree there give the same name |
| `DevName.TruncationExample` | drivers/leds/trigger/ledtrig-device.c:71-72 | the distinct devices 4294967295:10000 and 4294967295:10001 (major at UINT_MAX) get the same trigger name |
| `LedtrigDevice.FirstMatch` | drivers/leds/trigger/ledtrig-device.c:48-56 | the scan stops at the first entry of the device: the result indexes a match, no earlier entry matches, and it is `None` exactly when no entry matches |
| `LedtrigDevice.New` | drivers/leds/trigger/ledtrig-device.c:61-75 | the candidate exists exactly when allocation succeeds; it holds the device, the derived name and a NULL trigger |
| `LedtrigDevice.AddedKeepsUnique` | drivers/leds/trigger/ledtrig-device.c:103-110 | add preserves device uniqueness, and the device is present afterwards |
| `LedtrigDevice.AddedTwice` | drivers/leds/trigger/ledtrig-device.c:103-118 | a second add of the same device leaves the list as the first add left it |
| `LedtrigDevice.DeletedRemovesFirst` | drivers/leds/trigger/ledtrig-device.c:131-142 | with a match, del leaves a list one entry shorter: entries before the first match stay in place, and the ones after it move down by one |
| `LedtrigDevice.DeletedMultiset` | drivers/leds/trigger/ledtrig-device.c:131-142 | with a match, exactly one entry, the first match, leaves the multiset of entries |
| `LedtrigDevice.DeletedKeepsUnique` | drivers/leds/trigger/ledtrig-device.c:131-142 | del preserves device uniqueness, and on a unique list no entry of the device remains |
| `LedtrigDevice.DeletedKeepsNames` | drivers/leds/trigger/ledtrig-device.c:131-142 | del keeps every remaining entry's derived name |
| `LedtrigDevice.DeletedHandles` | drivers/leds/trigger/ledtrig-device.c:131-142 | with a match, del takes exactly the first match's handle out of the handles the list holds |
| `LedtrigDevice.LinkKeepsInvariant` | drivers/leds/trigger/ledtrig-device.c:109-116 | linking a new device's well-named entry at the head and logging its registration keeps uniqueness, derived names and the balance between registered handles and linked entries |
| `LedtrigDevice.DeleteUndoesAdd` | drivers/leds/trigger/ledtrig-device.c:103-142 | adding a new device and then deleting it gives back the original list |
| `LedtrigDevice.RegisteredNamesDistinct` | drivers/leds/trigger/ledtrig-device.c:109-116 | on a valid list whose numbers are below 10^7, no two entries register under the same trigger name |
| `LedtrigDevice.UnregisterAllAt` | drivers/leds/trigger/ledtrig-device.c:151-167 | teardown makes one call per entry, and call k unregisters the trigger of list entry k, in list order |
| `LedtrigDevice.UnregisterAllHandles` | drivers/leds/trigger/ledtrig-device.c:151-167 | teardown unregisters exactly the handles the entries hold, each as often as it is held, and registers nothing |
| `LedtrigDevice.Registry.constructor` | drivers/leds/trigger/ledtrig-device.c:23-24 | the list and the call log start empty, and the invariant holds |
| `LedtrigDevice.Registry.Lookup` | drivers/leds/trigger/ledtrig-device.c:103-108 | `found` is true exactly when some entry has the device, and then the index is that of the first such entry |
| `LedtrigDevice.Registry.Activity` | drivers/leds/trigger/ledtrig-device.c:41-58 | the list never changes. With the read lock and a matching entry, exactly one `Fire` is logged, on the first match's trigger, with on = off = 30 and invert 0. Otherwise nothing is logged |
| `LedtrigDevice.Registry.Release` | drivers/leds/trigger/ledtrig-device.c:77-82 | exactly one `Unregister` of the entry's trigger is appended: the registered handles are unchanged and the unregistered handles gain that one |
| `LedtrigDevice.Registry.Add` | drivers/leds/trigger/ledtrig-device.c:92-119 | if allocation fails or the device is present, the list and the log are unchanged. Otherwise the new entry (derived name, device, handle written back) goes to the head and exactly one `Register` under that name is logged. The invariant is preserved |
| `LedtrigDevice.Registry.Del` | drivers/leds/trigger/ledtrig-device.c:126-144 | the list becomes `Deleted(old list, dev)` and no entry of the device is left. With a match, exactly one `Unregister` of the first match's trigger is logged; with none, nothing is. The invariant is preserved |
| `LedtrigDevice.Registry.RemoveAll` | drivers/leds/trigger/ledtrig-device.c:147-168 | the list ends empty, and the log gains exactly one `Unregister` per entry, in list order. The invariant is preserved |
| `LedtrigDevice.RemoveAllTwice` | drivers/leds/trigger/ledtrig-device.c:151-167 | two teardowns in a row have the same effect as one |
| `LedtrigDevice.AddThenDel` | drivers/leds/trigger/ledtrig-device.c:92-144 | add of a new device followed by del restores the list; the log gains one register and one unregister of the same handle |

The methods `ScenarioDuplicate`, `ScenarioDelete`, `ScenarioActivity` and `ScenarioTeardown` walk through concrete call sequences with devices 8:0, 8:16 and 9:0, and assert the resulting list and log.

## Left out

- The `rwsem` locking itself: `down_read_trylock`, `down_write` and the `up_*` calls. Each operation is one atomic step, and only the trylock outcome is kept, as an input. The unlocked window at lines 111-116 is not modelled either: there a linked entry's trigger is still NULL and a concurrent `Activity` could see it. Both matter only under concurrency.
- The internals of `led_trigger_register_simple`, `led_trigger_unregister_simple` and `led_trigger_blink_oneshot`: they are foreign calls, recorded only as log events. A failed registration shows up only as the handle value the LED core writes back. There is no rollback, because the source does not check the result.
- `blink_delay` is passed by pointer, so the LED core could write an adjusted delay back. The model keeps it at the constant 30.
- `kzalloc` and `kfree`, apart from the allocation-failure branch of `add`. Freeing the candidate and freeing a released entry leave no trace in the model.
- The MAJOR/MINOR bit layout of `dev_t`, which comes from kdev_t.h. kdev_t.h is not part of this model. Majors and minors are unbounded naturals, so `%u`'s 32-bit range is not imposed; only `TruncationMergesMinors` and `TruncationExample` refer to it.
- The pointer links of the intrusive list: the list is a sequence, so aliasing of nodes and the `prev` cursor of `remove_all` appear only through their effect, which is that the head is removed on every pass.
- LedtrigDevice.Registry.Valid: does not state that linked entries hold pairwise distinct trigger handles. That depends on the LED core handing out fresh pointers, which the model cannot see; the handle balance in `Valid()` holds either way.
- Module glue: `ledtrig_dev_init`, `ledtrig_dev_exit`, `EXPORT_SYMBOL` and the `MODULE_*` macros.
