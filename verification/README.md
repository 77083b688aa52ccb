# Verified models of the network plugins

Dafny models of the stateful algorithms in the network plugins, and proofs about them: the
secret agent that queues NetworkManager's calls behind a single password prompt, the
controllers that keep item lists in step with JSON snapshots, the IP-conflict hysteresis,
the asynchronous proxy cache, the network panel whose rows must match its items, and six
smaller algorithms (IPv6 zero compression, chunked line framing, the last-hotspot tracker,
device-status aggregation, version comparison, path keys).

Where the program changes objects step by step, the model is a class whose methods have the
program's loops and branches; every method's contract ties the new state to a function of the old
one, and the lemmas are about that function and about whole runs of it. `dafny verify dfyconfig.toml`
checks everything.

| file | models |
|---|---|
| SecretQueue, SecretAgent, SecretQueueProofs, SecretOutcomes | common-plugin/secretagent.cpp |
| KeyedList, TaggedSlots, ControllItems, VpnController, DslController | src-old/vpncontroller.cpp, src-old/dslcontroller.cpp |
| HotspotItems, HotspotProofs, HotspotChanges, HotspotStatus, HotspotController | src-old/hotspotcontroller.cpp |
| IpConflict | src-old/ipconfilctchecker.cpp |
| ProxyCache, ProxyController | src/proxycontroller.cpp |
| PanelItems, PanelLayout, NetworkPanel | common-plugin/networkdialog/networkpanel.cpp |
| Ipv6 | src-old/networkdetails.cpp |
| Frames, NetworkDialog | common-plugin/networkdialog.cpp |
| HotspotTracker, HotspotSwitch, HotspotPlugin | dock-hotspot-plugin/hotspotplugin.cpp |
| DeviceStatus | common-plugin/item/devicestatushandler.cpp |
| PluginVersion | common-plugin/utils.h |
| Sequences, Text | shared facts about sequences, and splitting and joining text |

What NetworkManager, the devices, a socket or a D-Bus reply say enters as arguments: a record of
functions (`Library`, `Facts`), a snapshot, a chunk, a reply with its uninitialised fields arbitrary.

## Where the program does less than it seems to

- A password that arrives with an empty key is given to calls nobody was prompted for
  (`InputAnswersOnlyThePrompted` has the exact condition, `EmptyKeyReachesAWaitingCall` a run).
- A hotspot item survives a snapshot that does not list it when the path key of another
  connection equals its own (`ProductExactly`; `RenewedUuidSurvives` is a run).
- An IPv6 address whose compressed run is at its start, and which is not all zero, loses
  that run: a single ':' is left of it (`CompressionIsUndone`; `LeadingZeroIsLost` for ::1).
- The unfinished line at the end of a chunk is dispatched at once, and again when its
  newline arrives (`ExactlyTheLines`, `CutFrameIsDispatchedTwice`).
- `comparePluginApi` documents an order, but answers -1 both ways for versions that differ as text
  and not in rank, such as "1" and "01" or "+1" (`AntisymmetricExactly`, `LeadingZeroIsNotRanked`).
- A click on a hotspot that is on dereferences the device's active connection, which is null
  when the device has dropped it and the queued signal is still to come
  (`ClickActsOnPresentDevices`, `ClickMeetsNoConnection`).

## Model

| member | source | states |
|---|---|---|
| SecretAgents.SecretAgent.GetSecrets | common-plugin/secretagent.cpp:37-72 | An older call with the same id is cancelled and the queue drained first, then the new call is queued and the queue drained: the new state is exactly that step of the old one. |
| SecretAgents.SecretAgent.SaveSecrets | common-plugin/secretagent.cpp:74-90 | A save of a connection without secrets is queued as a delete; then the queue is drained. |
| SecretAgents.SecretAgent.DeleteSecrets | common-plugin/secretagent.cpp:92-102 | The call is queued and the queue drained. |
| SecretAgents.SecretAgent.CancelGetSecrets | common-plugin/secretagent.cpp:104-121 | The first call with the id leaves with an AgentCanceled error, a prompt for it ends, and the queue is drained. |
| SecretAgents.SecretAgent.OnInputPassword | common-plugin/secretagent.cpp:123-149 | Every call whose ssid is the key is answered and marked, none leaves the list: the loop equals the step on the old state. |
| SecretAgents.SecretAgent.ProcessNext | common-plugin/secretagent.cpp:151-178 | The in-place drain, with its index that stays put after a removal, equals one pass over the list. |
| SecretAgents.SecretAgent.ProcessGetSecrets | common-plugin/secretagent.cpp:180-286 | Each way a call for secrets can go: error, immediate reply, prompt (recorded in the shared ssid and in the request), or waiting. |
| SecretQueue.TurnKeepsOutcome | common-plugin/secretagent.cpp:151-178 | One turn of the drain loop, from any position in the list, leads to the same final state as the whole drain. |
| SecretQueueProofs.EveryRun | common-plugin/secretagent.cpp:37-178 | After every run of slots: pending calls in arrival order with distinct ids, one prompt, every unprompted call unanswered, each accepted call pending or closed once, and nothing left that could be answered. |
| SecretQueueProofs.StepKeeps | common-plugin/secretagent.cpp:37-149 | Each slot keeps that invariant, the nested cancel and drain of GetSecrets included. |
| SecretQueueProofs.ReplacedIsGone | common-plugin/secretagent.cpp:44-58 | After the nested cancel and drain no pending call has the id of the new one. |
| SecretQueueProofs.OneCallIsPrompted | common-plugin/secretagent.cpp:37-178 | Between slots m_ssid is nonempty exactly when one pending GetSecrets call carries an ssid, that ssid is m_ssid, and no save or delete is pending. |
| SecretQueueProofs.GreeterPromptsTheOldest | common-plugin/secretagent.cpp:255-286 | In greeter mode m_ssid is empty exactly when nothing is pending, and otherwise the oldest pending call is the prompted one. |
| SecretQueueProofs.PromptsFollowArrival | common-plugin/secretagent.cpp:255-286 | Over a whole run the prompts are issued in strictly increasing arrival order. |
| SecretQueueProofs.EachCallClosedOnce | common-plugin/secretagent.cpp:104-178 | Each accepted call is pending or closed by exactly one reply, and a pending call with a reply is the prompted one. |
| SecretQueueProofs.LeavingIsOneReply | common-plugin/secretagent.cpp:104-178 | In one slot the closing replies are to exactly the calls that leave the list, or arrive and do not stay. |
| SecretQueueProofs.DrainReachesFixedPoint | common-plugin/secretagent.cpp:151-178 | A second drain sends nothing, prompts nothing and changes nothing, and what the first one left is an order-preserving subsequence. |
| SecretQueueProofs.DrainConserves | common-plugin/secretagent.cpp:151-178 | Every call the drain finds is kept, or closed by exactly one reply. |
| SecretQueueProofs.DrainWhilePrompting | common-plugin/secretagent.cpp:151-178 | While a prompt is in flight the drain keeps exactly the GetSecrets calls and prompts for nothing. |
| SecretQueueProofs.DrainOutsidePrompt | common-plugin/secretagent.cpp:151-286 | Otherwise it prompts for the first call that wants a prompt, every call before which must wait, or leaves no call that wants one. |
| SecretQueueProofs.InputAnswersOnlyThePrompted | common-plugin/secretagent.cpp:123-149 | An input answers nobody but the prompted call if and only if its key is nonempty or no other call could take the answer. |
| SecretQueueProofs.EmptyKeyReachesAWaitingCall | common-plugin/secretagent.cpp:123-149 | A run of valid events after which one call waits without a prompt and unanswered, and an input with an empty key answers it. |
| SecretQueueProofs.PromptsAreWanted | common-plugin/secretagent.cpp:180-286 | Outside a prompt the drain prompts for exactly the first pending call, if any, that is wireless, user-requested and needs new secrets or may interact in greeter mode. |
| SecretOutcomes.EveryCallArrives | common-plugin/secretagent.cpp:37-102 | After every run the number of accepted calls is the number of GetSecrets, SaveSecrets and DeleteSecrets calls it brought. |
| SecretOutcomes.AskOutcome | common-plugin/secretagent.cpp:37-72 | A GetSecrets call, with its connection, id, setting and flags, ends waiting, prompted for or answered as it has earned, and nothing else changes but for the cancelled older call. |
| SecretOutcomes.SaveOutcome | common-plugin/secretagent.cpp:74-102 | A Save or Delete call is acknowledged at once, and nothing else changes. |
| SecretOutcomes.CancelOutcome | common-plugin/secretagent.cpp:104-121 | Cancelling an unknown id does nothing; otherwise its call gets AgentCanceled and leaves, and if it was the prompted one, the first call that wants a prompt gets one and every other reply is earned. |
| SecretOutcomes.InputOutcome | common-plugin/secretagent.cpp:123-149 | An input that names no prompt does nothing; one that names it sends UserCanceled, or the password under the first secret the setting needs, or nothing when there is no password or need. |
| SecretOutcomes.AnsweredAsEarned | common-plugin/secretagent.cpp:180-308 | For each reply the one condition under which a call gets it: socket or NoSecrets for an ssh VPN, stored, VPN or setting secrets, AgentCanceled, InternalError, acknowledgement; and those for a prompt and for waiting. |
| SecretOutcomes.DrainRepliesEarned | common-plugin/secretagent.cpp:151-308 | Every reply of a drain goes to a pending call that has earned it, and during a prompt only Save and Delete calls get one. |
| KeyedList.ReconcileOrder | src-old/vpncontroller.cpp:51-98 | After a snapshot the keys are the surviving old ones in their old order and then the new ones in order of first occurrence. |
| KeyedList.ReconcileAgrees | src-old/vpncontroller.cpp:51-98 | After a snapshot the list holds each key of the snapshot once with the last value given to it, and no other key. |
| ControllItems.ItemsAreRebuilt | src-old/vpncontroller.cpp:51-98 | After any snapshots the controller's items show exactly what the items of a controller show that saw the last snapshot alone, and agree with it. |
| ControllItems.UpdateIs | src-old/vpncontroller.cpp:51-98 | The in-place update of the items is the reconciliation of the list they show, identities are those kept plus those new, and the signals name the difference. |
| ControllItems.SurvivorKeeps | src-old/vpncontroller.cpp:51-98 | An item that survives keeps its identity, its path and its status. |
| ControllItems.RemovedAre | src-old/vpncontroller.cpp:79-97 | An old item is reported removed exactly when the snapshot lacks its path. |
| ControllItems.RemovedWereThere | src-old/vpncontroller.cpp:76-97 | What is reported removed was there before, and nothing is added and removed by one call. |
| ControllItems.ChangedMeans | src-old/vpncontroller.cpp:61-74 | With distinct paths itemChanged names, each once, exactly the old items whose path the snapshot lists under another id. |
| TaggedSlots.RetaggedAre | src-old/dslcontroller.cpp:70-90 | The same of any list found by a key and compared by a tag. |
| ControllItems.ListenerAgrees | src-old/vpncontroller.cpp:76-97 | After any run a listener that applied itemAdded and itemRemoved holds exactly the controller's items, which agree with the last snapshot. |
| ControllItems.FindItem | src-old/vpncontroller.cpp:135-143 | The index of the first item with the path, or none. |
| ControllItems.FindItemByUuid | src-old/vpncontroller.cpp:145-153 | The index of the first item with the uuid, or none. |
| Sequences.RemoveEach | src-old/vpncontroller.cpp:89-90 | Removing the collected items one at a time removes exactly them and keeps the order. |
| ControllItems.ActiveUpdateMeans | src-old/vpncontroller.cpp:100-133 | With distinct uuids an item ends with the converted state of its entry, Deactivated without one, and its entry is news exactly when the state differs from the status before. |
| ControllItems.ChangeSignalMeans | src-old/vpncontroller.cpp:100-133 | activeConnectionChanged fires if and only if some listed known connection's state differs from its status before. |
| ControllItems.ActivePathIsLast | src-old/vpncontroller.cpp:112-128 | m_activePath is the key of the last entry whose known item is activated. |
| ControllItems.NoActivePath | src-old/vpncontroller.cpp:112-128 | m_activePath is empty when no known item is activated. |
| ControllItems.StatusNumbers | src-old/netutils.cpp:46-57 | States 1 to 4 are activating, activated, deactivating and deactivated, and no other number is. |
| VpnControllers.VPNController.UpdateVPNItems | src-old/vpncontroller.cpp:51-98 | The three loops produce the list and the signals of the update, and keep the listener's mirror equal to the items. |
| VpnControllers.VPNController.PutItems | src-old/vpncontroller.cpp:51-77 | The loop over the snapshot: items found by path are rewritten, others created and appended, renamed ones collected. |
| ControllItems.ShowActive | src-old/vpncontroller.cpp:112-129 | One entry shown on the first item with its uuid, with the active path and the change flag it leaves. |
| ControllItems.RemoveGone | src-old/vpncontroller.cpp:82-97 | The items whose path the snapshot lacks are collected and removed, the others keep their order. |
| VpnControllers.VPNController.UpdateActiveConnection | src-old/vpncontroller.cpp:100-133 | The loops leave every item with the status of the snapshot, the active path, and the signal decided as specified. |
| DslControllers.DSLController.UpdateDevice | src-old/dslcontroller.cpp:54-59 | The table holds the hardware address of every device, with the path of the last device that has it. |
| DslControllers.DSLController.UpdateDSLItems | src-old/dslcontroller.cpp:61-107 | The same update as the VPN controller's, reached by statements in another order. |
| DslControllers.DSLController.PutItems | src-old/dslcontroller.cpp:61-86 | A new item is appended before its connection is set; the outcome is the same put. |
| DslControllers.DSLController.UpdateActiveConnections | src-old/dslcontroller.cpp:109-143 | As for the VPN controller. |
| HotspotProofs.ProductExactly | src-old/hotspotcontroller.cpp:249-321 | After a connection snapshot the items are the suitable pairs of device and connection if and only if no old item's path key is carried by an offer that does not update it. |
| HotspotProofs.RenewedUuidSurvives | src-old/hotspotcontroller.cpp:262-310 | A run in which a connection returns under a new uuid at its old path, and the item of the old uuid stays. |
| HotspotProofs.NothingMissing | src-old/hotspotcontroller.cpp:249-300 | Every suitable pair has its item, unconditionally. |
| HotspotProofs.NobodyMistaken | src-old/hotspotcontroller.cpp:262-310 | No old item is mistaken when uuids and paths name the same connections and device paths are distinct object paths. |
| HotspotProofs.DashSplits | src-old/hotspotcontroller.cpp:262-310 | The "%1-%2" key of two object paths is injective, because object paths contain no '-' (D-Bus Specification, section "Valid Object Paths"). |
| HotspotProofs.HotspotRun | src-old/hotspotcontroller.cpp:195-321 | In every run of device and connection snapshots every item's device is a current one, and no (device, uuid) pair has two items. |
| HotspotProofs.HotspotsAreTheProduct | src-old/hotspotcontroller.cpp:195-321 | In every run the items after a connection snapshot are exactly the suitable pairs of current device and listed connection, each once. |
| HotspotProofs.MirrorAgrees | src-old/hotspotcontroller.cpp:291-320 | After any run, and any connection snapshots after it, a listener that held the items and applies the signals holds exactly the items. |
| HotspotProofs.HotspotListener | src-old/hotspotcontroller.cpp:291-320 | The signals of one connection snapshot carry the old items to the new ones. |
| HotspotProofs.RemovedHotspotWasThere | src-old/hotspotcontroller.cpp:300-320 | What is reported removed was there, and was not added by the same call. |
| HotspotChanges.HotspotChangedMeans | src-old/hotspotcontroller.cpp:263-289 | With distinct devices and uuids itemChanged names, each once, exactly the old items that the snapshot offers their device under another ssid. |
| HotspotChanges.EligibleAre | src-old/hotspotcontroller.cpp:195-209 | A device is kept exactly when the snapshot calls it wireless, able to host and enabled. |
| HotspotControllers.HotspotController.FindItem | src-old/hotspotcontroller.cpp:103-113 | The index of the first item with the device and the uuid, or none. |
| HotspotControllers.HotspotController.UpdateDevices | src-old/hotspotcontroller.cpp:195-247 | The eligible devices replace the old ones, items of others go, and the three signals say exactly what came, what went and whether support changed. |
| HotspotControllers.HotspotController.DropHomeless | src-old/hotspotcontroller.cpp:211-219 | The erase-while-iterating loop drops exactly the items whose device is gone. |
| HotspotControllers.HotspotController.UpdateConnections | src-old/hotspotcontroller.cpp:249-321 | The loops produce the list and the signals of the update. |
| HotspotControllers.HotspotController.SortByAddress | src-old/hotspotcontroller.cpp:249-262 | Connections without an address are common, the others are filed under their address, in order. |
| HotspotControllers.HotspotController.PlaceAll | src-old/hotspotcontroller.cpp:263-300 | The nested loops place the offers device by device. |
| HotspotControllers.HotspotController.UpdateActiveConnection | src-old/hotspotcontroller.cpp:125-183 | After an active-connection snapshot every item shows what the entries and their device paths make of it, and the signals are those the entries tell. |
| HotspotControllers.HotspotController.ShowOn | src-old/hotspotcontroller.cpp:152-179 | One device path of an entry: its item, the switch signal, the changed device. |
| HotspotControllers.HotspotController.FindDevice | src-old/hotspotcontroller.cpp:185-193 | The index of the first device with the path, or none. |
| HotspotControllers.HotspotController.IsHotspotConnection | src-old/hotspotcontroller.cpp:115-123 | Whether some item has the uuid. |
| HotspotStatuses.ShowsLastConcerning | src-old/hotspotcontroller.cpp:125-183 | An item ends showing the last entry with its uuid that lists its device's path, and deactivated without one. |
| HotspotStatuses.RunShowsLastConcerning | src-old/hotspotcontroller.cpp:125-321 | So after every run of device and connection snapshots with distinct device paths. |
| HotspotStatuses.TellIs | src-old/hotspotcontroller.cpp:150-180 | An entry adds exactly the devices it reaches while its state is news, each once, and emits enableHotspotSwitch if and only if it reaches a device and completes a change. |
| HotspotStatuses.TidingsMean | src-old/hotspotcontroller.cpp:125-183 | activeConnectionChanged names exactly the devices some entry brings news to, each once, and is emitted when there are any; enableHotspotSwitch is emitted when some entry completes a change. |
| HotspotStatuses.NewsMeans | src-old/hotspotcontroller.cpp:150-180 | Where each uuid has one item, an entry is news to a device exactly when it is about an item of that device and differs from what the item showed before. |
| IpConflict.FlagIsHistory | src-old/ipconfilctchecker.cpp:262-297 | After any history m_ipConflicted says whether two consecutive MAC answers occur with no four consecutive empty answers after them, the counters are the trailing runs, and the signals alternate starting with true. |
| IpConflict.ProbesAreConfirmations | src-old/ipconfilctchecker.cpp:262-297 | A confirmation is asked for exactly on a first MAC outside a conflict or one of the first three empty answers inside one. |
| IpConflict.ConflictAfterEmpty | src-old/ipconfilctchecker.cpp:264-279 | An empty answer ends a standing conflict exactly when three empty ones precede it. |
| IpConflict.ConflictAfterMac | src-old/ipconfilctchecker.cpp:280-296 | A MAC answer makes a conflict exactly when one stands or the answer before named a MAC too. |
| IpConflict.DeviceIPChecker.HandlerIpConflict | src-old/ipconfilctchecker.cpp:262-297 | The in-place counters and flag follow the history by one answer. |
| IpConflict.DeviceIPChecker.SetDeviceInfo | src-old/ipconfilctchecker.cpp:256-260 | Only the addresses and the next answer change. |
| ProxyCache.CacheIsHistory | src/proxycontroller.cpp:142-161 | In any interleaving the cache holds exactly one record for each type replied to since the last clear; url and port are the last data reply's, the auth fields the last auth reply's. |
| ProxyCache.LearnedIsLast | src/proxycontroller.cpp:218-302 | Those facts are the last valid reply of each kind for the normalised type since the last clear. |
| ProxyCache.InterleavingsAgree | src/proxycontroller.cpp:142-302 | After a clear two interleavings of the same replies, at most one of each kind per type, leave the same record of a type that had both. |
| ProxyCache.SameFactsSameRecord | src/proxycontroller.cpp:218-302 | Histories with the same last replies leave the same record. |
| ProxyCache.ClearForgets | src/proxycontroller.cpp:142-146 | Nothing before a clear matters. |
| ProxyCache.ExistFlagIsTrue | src/proxycontroller.cpp:389-404 | In every reachable state without an unchecked clear m_systemProxyExist is whether some url is nonempty, and its change signals alternate. |
| ProxyCache.CheckRestores | src/proxycontroller.cpp:27-48 | Once an event has checked, such as a proxy-method event, a new automatic url or a changed record, the flag is true until the next clear. |
| ProxyCache.NewsIsUnknown | src/proxycontroller.cpp:230-256 | In every reachable state a data reply counts as new exactly when it is valid and no record of its type has its url and port. |
| ProxyCache.SettingsAreLast | src/proxycontroller.cpp:40-48 | In every run the method is that of the last method event and the automatic url the last one. |
| ProxyCache.NamesRoundTrip | src/proxycontroller.cpp:189-216 | Type to name and back is the identity, as is name to type and back on the four names; any other name is taken for http. |
| ProxyControllers.ProxyController.QuerySysProxyData | src/proxycontroller.cpp:142-161 | The cache is cleared, each of the four types is asked for its data and its auth in order, then the automatic url, the method and the ignored hosts. |
| ProxyControllers.ProxyController.OnProxyReply | src/proxycontroller.cpp:218-256 | The reply is one step of the history; proxyChanged is emitted exactly when a record is made or changed, and the flag is true after it. |
| ProxyControllers.ProxyController.OnProxyAuthReply | src/proxycontroller.cpp:258-302 | The reply is one step of the history; proxyAuthChanged is emitted exactly when the cache changes. |
| ProxyControllers.ProxyController.OnAutoProxyReply | src/proxycontroller.cpp:163-176 | The url is stored as one step of the history; autoProxyChanged is emitted exactly when it is new, and the flag is true after it. |
| ProxyControllers.ProxyController.OnProxyMethodChanged | src/proxycontroller.cpp:40-48 | The method changes with a signal when it is new, and the flag is true afterwards. |
| ProxyControllers.ProxyController.CheckSystemProxyExist | src/proxycontroller.cpp:389-404 | The loop decides whether some url is nonempty and emits exactly on a change. |
| ProxyControllers.ProxyController.GetProxy | src/proxycontroller.cpp:121-130 | A record is returned exactly for types replied to since the last clear, and says what the last replies said. |
| PanelItems.UpdateAgrees | common-plugin/networkdialog/networkpanel.cpp:255-521 | For distinct devices and connections the update leaves one item per key of the layout, old items kept, and row i of the model is the i-th item's. |
| PanelItems.EveryUpdateAgrees | common-plugin/networkdialog/networkpanel.cpp:255-521 | So after every run of updates from the empty panel. |
| PanelItems.RowsAgree | common-plugin/networkdialog/networkpanel.cpp:470-502 | Removing stale rows, appending missing ones and sorting by index leaves exactly the items' rows in order, from any distinct rows. |
| PanelItems.PlacedInOrder | common-plugin/networkdialog/networkpanel.cpp:338-455 | The rebuild keeps the item of every known key, makes new ones for the others, and gives strictly increasing sort indices. |
| PanelItems.LoopsPlaceTheLayout | common-plugin/networkdialog/networkpanel.cpp:338-455 | The nested loops over devices, access points and connections place the keys of the layout in its order. |
| PanelItems.LayoutIsDistinct | common-plugin/networkdialog/networkpanel.cpp:338-455 | The layout has no key twice when devices, their access points and all wired connections are distinct. |
| PanelLayout.PanelShows | common-plugin/networkdialog/networkpanel.cpp:338-455 | A wired connection is listed iff an enabled wired device has it, an access point iff its device is enabled and no hotspot, the hidden network iff besides there is no airplane mode, every device's control, and a head iff there are several devices. |
| PanelLayout.LayoutEnumerates | common-plugin/networkdialog/networkpanel.cpp:338-455 | The list is exactly these keys in order: wireless before wired, each device's keys together after its control, access points and connections in their device's order. |
| PanelItems.NextStale | common-plugin/networkdialog/networkpanel.cpp:477-485 | Between one stale row and the next everything is kept, which is why removal from the last row computes the filter. |
| PanelItems.SortedStaleRows | common-plugin/networkdialog/networkpanel.cpp:477-483 | The rows collected and then sorted are the stale rows from the last to the first. |
| PanelItems.DescendingIs | common-plugin/networkdialog/networkpanel.cpp:483-483 | That sort permutes the rows and leaves none before a higher one. |
| PanelItems.SortIs | common-plugin/networkdialog/networkpanel.cpp:502-502 | The stable sort of rows with different ranks puts the same rows in strictly rising rank. |
| NetworkPanels.NetworkPanel.UpdateView | common-plugin/networkdialog/networkpanel.cpp:458-461 | After updateItems and refreshItems row i holds the i-th item, and the items are the rebuild of the old ones. |
| NetworkPanels.NetworkPanel.UpdateItems | common-plugin/networkdialog/networkpanel.cpp:338-456 | The loops equal the rebuild by the layout. |
| NetworkPanels.NetworkPanel.RefreshItems | common-plugin/networkdialog/networkpanel.cpp:470-502 | The row edits equal the specified refresh, and keep rows and items in step. |
| NetworkPanels.NetworkPanel.RemoveStale | common-plugin/networkdialog/networkpanel.cpp:477-485 | Removal by descending index leaves exactly the rows still wanted. |
| NetworkPanels.NetworkPanel.OnClickListView | common-plugin/networkdialog/networkpanel.cpp:633-641 | The item looked up by the clicked row is the one whose standard item the row shows. |
| Ipv6.CompressedIpv6Addr | src-old/networkdetails.cpp:31-64 | The loop over the groups and the three returns equal the specified text. |
| Ipv6.RunsAre | src-old/networkdetails.cpp:37-51 | The run kept is the first longest among the zero runs followed by a nonzero group, and the last one counted is the trailing run. |
| Ipv6.ScanIsRuns | src-old/networkdetails.cpp:37-51 | Character offsets are five times the group positions. |
| Ipv6.CompressionIsUndone | src-old/networkdetails.cpp:31-64 | Expanding "::" (section 2.2 of RFC 4291) gives the full-form address back if and only if the compressed run does not begin an address that is not all zero. |
| Ipv6.InnerRunIsReplaced | src-old/networkdetails.cpp:53-54 | The chosen run is replaced by "::", or by a single ':' at the start. |
| Ipv6.TrailingRunIsReplaced | src-old/networkdetails.cpp:56-63 | The trailing run is replaced only when there is no other, an all-zero address becomes "::", and an address without a run is unchanged. |
| Ipv6.LeadingZeroIsLost | src-old/networkdetails.cpp:53-54 | The full form of ::1 comes out as ":0001". |
| Ipv6.DoubleIsKept | src-old/networkdetails.cpp:33-34 | An address that already has a "::" is unchanged. |
| Frames.AnyChunking | common-plugin/networkdialog.cpp:116-136 | For every chunking m_lastData is the text after the last newline of the whole stream, and the finished lines are dispatched in order as a subsequence of all dispatches. |
| Frames.ExactlyTheLines | common-plugin/networkdialog.cpp:116-136 | Exactly the finished lines are dispatched if and only if no chunk ends in an unfinished line that already reads as a command. |
| Frames.FramesRoundTrip | common-plugin/networkdialog.cpp:108-136 | A stream of sendable frames cut at newlines is decoded to exactly those frames in order. |
| Frames.StreamLines | common-plugin/networkdialog.cpp:108-152 | The lines of a stream of frames read back as the frames. |
| Frames.LaterText | common-plugin/networkdialog.cpp:121-124 | Text that arrives later changes only the unfinished line. |
| Frames.ParseExactly | common-plugin/networkdialog.cpp:126-133 | A line is dispatched exactly when it is "password" or "connect", a ':' and a payload. |
| Frames.CutFrameIsDispatchedTwice | common-plugin/networkdialog.cpp:116-136 | A frame cut inside its payload is dispatched once with the piece and once whole. |
| NetworkDialogs.NetworkDialog.ReadyReadHandler | common-plugin/networkdialog.cpp:116-136 | One chunk: the commands run are appended in order and the unfinished text of the whole stream is kept. |
| HotspotTracker.AlwaysTracked | dock-hotspot-plugin/hotspotplugin.cpp:67-181 | In every run of events the latest device is null exactly when the latest hotspot is, and an enabled hotspot implies a device. |
| HotspotTracker.LatestIsListed | dock-hotspot-plugin/hotspotplugin.cpp:58-181 | In every run of such events the latest device is always one of the plugin's devices. |
| HotspotTracker.ListedExactly | dock-hotspot-plugin/hotspotplugin.cpp:58-181 | An event keeps the latest device among the plugin's devices if and only if it adds no device twice and reports no active hotspot of an absent device. |
| HotspotTracker.RemovedIsForgotten | dock-hotspot-plugin/hotspotplugin.cpp:67-90 | After a device is removed it is in no list and is not the latest one. |
| HotspotTracker.LatestIs | dock-hotspot-plugin/hotspotplugin.cpp:327-344 | The nested maximum loop ends with the last of the newest usable connections. |
| HotspotTracker.ChoiceIsLastNewest | dock-hotspot-plugin/hotspotplugin.cpp:327-355 | The choice is that connection and its device, or null if and only if no usable connection has a positive timestamp, and it ignores what was chosen before. |
| HotspotSwitch.ChoiceMeans | dock-hotspot-plugin/hotspotplugin.cpp:327-355 | In terms of the devices and their connections: the choice is the last, in the order of the nested loop, of the newest that are not "infrastructure", or none iff none of them has a positive timestamp. |
| HotspotSwitch.EventMeans | dock-hotspot-plugin/hotspotplugin.cpp:110-181 | What an added device, a changed active connection and changed flags do to the latest device and to the switch. |
| HotspotSwitch.NewChoiceMeans | dock-hotspot-plugin/hotspotplugin.cpp:91-98 | Only the removal of the latest hotspot's connection makes a new choice, after which the hotspot is on iff it was and the chosen device is available. |
| HotspotSwitch.RemovalMeans | dock-hotspot-plugin/hotspotplugin.cpp:67-90 | A removed device goes alone; if it was the latest one, the new choice is made, activated, and kept on only on an available device. |
| HotspotTracker.ClickActsOnPresentDevices | dock-hotspot-plugin/hotspotplugin.cpp:212-237 | Both clicks do the same, act only on a device that is present and available when they activate, and dereference a null connection if and only if the hotspot is on and its device has none. |
| HotspotTracker.ClickMeetsNoConnection | dock-hotspot-plugin/hotspotplugin.cpp:218-223 | A run after which a click meets no connection. |
| HotspotTracker.ClicksAgreeExactly | dock-hotspot-plugin/hotspotplugin.cpp:357-388 | The two clicks differ exactly for a hotspot that is on without any device. |
| HotspotPlugins.HotspotPlugin.OnStateChanged | dock-hotspot-plugin/hotspotplugin.cpp:284-312 | The hotspot is on exactly when it is reported on and there is a device. |
| HotspotPlugins.HotspotPlugin.UpdateLatestHotSpot | dock-hotspot-plugin/hotspotplugin.cpp:327-355 | The nested loop and the switch after it equal the specified choice. |
| HotspotPlugins.HotspotPlugin.UpdateState | dock-hotspot-plugin/hotspotplugin.cpp:148-181 | A device's active hotspot becomes the latest one; another device's other states are ignored. |
| HotspotPlugins.HotspotPlugin.OnDeviceRemoved | dock-hotspot-plugin/hotspotplugin.cpp:67-90 | The loop over a copy of the devices equals its steps, and each lost latest hotspot is replaced by the new choice. |
| HotspotPlugins.HotspotPlugin.OnConnectionRemoved | dock-hotspot-plugin/hotspotplugin.cpp:91-98 | Only the removal of the latest hotspot makes a new choice. |
| HotspotPlugins.HotspotPlugin.OnInterfaceFlagsChanged | dock-hotspot-plugin/hotspotplugin.cpp:110-140 | The hotspot is off afterwards unless nothing was activated on the latest device, and is deactivated exactly when it is the latest one's. |
| HotspotPlugins.HotspotPlugin.ItemCommand | dock-hotspot-plugin/hotspotplugin.cpp:212-237 | The branches come to the specified action. |
| HotspotPlugins.HotspotPlugin.OnQuickPanelClicked | dock-hotspot-plugin/hotspotplugin.cpp:357-388 | The branches, with the guards in the other order, come to the specified action. |
| DeviceStatuses.StatusOfConcat | common-plugin/item/devicestatushandler.cpp:80-150 | Each list-level status of two lists together is the one of theirs that stands first in the order. |
| DeviceStatuses.PickIs | common-plugin/item/devicestatushandler.cpp:80-150 | No device has a status standing before the one picked, which some device has unless it is Unknown. |
| DeviceStatuses.WiredStatusMeans | common-plugin/item/devicestatushandler.cpp:80-99 | The status of a list is s iff some device has s and none has one that counts more: authenticating, obtaining an address, conflict, connected, without internet, connecting, disconnected, disabled, no cable. |
| DeviceStatuses.WirelessStatusMeans | common-plugin/item/devicestatushandler.cpp:131-150 | The same for wireless devices, which never lack a cable. |
| DeviceStatuses.WiredDeviceMeans | common-plugin/item/devicestatushandler.cpp:42-78 | For each status of one wired device, exactly when it is shown. |
| DeviceStatuses.WirelessDeviceMeans | common-plugin/item/devicestatushandler.cpp:101-129 | A wireless device shows what a wired one would under full connectivity, with Disconnected for a missing cable. |
| DeviceStatuses.StateOfSameDevices | common-plugin/item/devicestatushandler.cpp:20-40 | The plugin state depends only on which devices there are. |
| DeviceStatuses.StateOfPermutation | common-plugin/item/devicestatushandler.cpp:20-40 | The plugin state is invariant under permutation of the devices. |
| DeviceStatuses.StateIsSummary | common-plugin/item/devicestatushandler.cpp:152-440 | For all devices the cascade of predicates comes to one order: conflict, connecting, connected, limited, disconnected, no cable, disabled. |
| DeviceStatuses.ShownExactly | common-plugin/item/devicestatushandler.cpp:20-440 | A plugin state is shown for some devices if and only if it is none of Failed, WiredFailed, WirelessFailed, ConnectNoInternet and WirelessConnectNoInternet. |
| DeviceStatuses.ShownState | common-plugin/item/devicestatushandler.cpp:20-40 | The loop that sorts devices by kind and the three calls equal the specified state. |
| DeviceStatuses.ListWiredStatus | common-plugin/item/devicestatushandler.cpp:80-99 | The two loops pick the first status of the order. |
| DeviceStatuses.ListWirelessStatus | common-plugin/item/devicestatushandler.cpp:131-150 | The two loops pick the first status of the order. |
| PluginVersion.ComparePluginApi | common-plugin/utils.h:90-123 | The index loop with its early returns equals the comparison of the parts. |
| PluginVersion.CompareIsLexicographic | common-plugin/utils.h:90-123 | On written canonical versions the result is the lexicographic comparison of the number sequences. |
| PluginVersion.CanonicalOrder | common-plugin/utils.h:90-123 | There it is antisymmetric, transitive, and zero only on equal text. |
| PluginVersion.AntisymmetricExactly | common-plugin/utils.h:90-123 | On any two texts it is antisymmetric if and only if they are equal, or their first differing parts differ as QString::toInt reads them, or only their lengths differ. |
| PluginVersion.PartsOfWritten | common-plugin/utils.h:95-97 | Splitting a written version gives its decimal parts back. |
| PluginVersion.PartsAre | common-plugin/utils.h:95-97 | On any text dots separate the parts and empty parts are skipped. |
| PluginVersion.SpaceIsTrimmed | common-plugin/utils.h:108-108 | White space around a number does not change what QString::toInt reads. |
| PluginVersion.SignedDigits | common-plugin/utils.h:108-108 | A sign before the digits counts, within the range of a 32-bit int. |
| PluginVersion.DecimalRoundTrip | common-plugin/utils.h:107-108 | Reading a written number gives the number. |
| PluginVersion.ToIntOfDigits | common-plugin/utils.h:108-108 | On a text of digits QString::toInt reads the number it writes, or 0 beyond the range. |
| PluginVersion.LeadingZeroIsNotRanked | common-plugin/utils.h:107-112 | "1" and "01", and "1" and "+1", each compare as less than the other, while "-1" ranks below "0". |

## Left out

- Painting, widgets, icons, menus, translations, the example programs, D-Bus proxies and configuration: they would only add members without a property.
- Item objects: VPN, DSL, hotspot and panel items are values with an identity number in their controller's field, so updates through another pointer to the same item are not modelled; "keeps object identity" is proved of that number.
- Hotspot item statuses are kept beside the items, by identity; what a device says its path and address are is an argument of each call.
- SecretQueueProofs.EveryRun: takes connections with a nonempty id and inputs with a nonempty key, because a prompt is recognised by its nonempty ssid; the empty key is treated by InputAnswersOnlyThePrompted.
- The connection reads of the secret agent (settings, flags, needSecrets, stored secrets) are arbitrary functions of the connection; saveSecretsWithoutReply, never set in the program, is not part of this model.
- The per-device grouping of the hotspot signals: the model's lists are flat.
- Integer widths of counters (retry, probe and sort counters, timestamps) are unbounded.
- IPConfilctChecker's list of checkers, which is edited while it is iterated, the 5-second timer and the 800 ms delay of DeviceIPChecker.
- NetworkPanels.NetworkPanel.UpdateView: assumes devices, access points and wired connections are told apart; the order of access points is taken as given, because the comparator at common-plugin/networkdialog/networkpanel.cpp:371-379 is no strict weak order.
- Ipv6.CompressionIsUndone: speaks of full-form addresses of four-digit groups, the form NetworkManager's JSON carries; CompressedIpv6Addr itself is modelled on every text.
- Frames.AnyChunking: a single client's stream, because m_lastData is shared between clients; JSON payloads and what the commands do are not modelled.
- The settings the proxy controller writes, the replies about ignored hosts, and the application proxy.
