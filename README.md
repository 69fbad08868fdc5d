# A verified model of the core of Resources

Resources is a GTK system monitor for Linux written in Rust. This project models the
deterministic logic underneath its user interface and proves properties of that model:

- **Identifiers and tables.** The packed PCI slot address with its parser and printer. The
  `pci.ids` parser and its vendor → device → subdevice lookups. The PCIe, SATA, USB and Wi-Fi
  link-speed parsers and printers, in both the current and the older monolithic layout. The
  small classifiers for batteries, drives and network interfaces.
- **Per-process samples.** The `process_data` helpers: `\xHH` un-escaping, `fdinfo` parsing,
  affinity masks, `/proc/[pid]/stat` fields, merging GPU and NPU usage. The `Process`
  derivations and the helper programs' exit codes. The length-prefixed frames between the
  `resources-processes` companion and its reader.
- **Grouping processes into apps.** `AppsContext::refresh` and the `App` aggregates, and the
  older `Apps` model with its app/system partition and `known_proc_paths` bookkeeping. Both
  are classes over maps whose methods are proved against value-level specifications.
- **Bounded history and list reconciliation.** The 600-point `ResGraph` history. The process
  and application pages reconciling their list stores with a new snapshot.
- **Small helpers.** Unit prefixes, `freplace`/`kreplace`, the sidebar ordering, and the
  `/proc/stat`, `cpufreq` and `lscpu` readings.

Each source file is one module in a file of its own. `wrappers.dfy` holds `Option`/`Result`,
`text.dfy` the Rust string and number helpers the parsers share, and `counters.dfy` the
wrapping and saturating integer arithmetic. File, sysfs and procfs contents, command output
and the clock are parameters. The translation catalogue is a parameter only of `I18n.I18nF`
and `I18n.Ni18nF`; everywhere else the model shows the untranslated English text (the
identity catalogue). Integers are unbounded, and `u32`,
`u64`, `i32` and `usize` wrap-around or saturation are written out where the source has them.

## Model

| member | source | states |
|---|---|---|
| `PciSlot.Slot.Domain` | lib/process_data/src/pci_slot.rs:77-80 | the domain read from the packed word fits in 16 bits |
| `PciSlot.Slot.Bus` | lib/process_data/src/pci_slot.rs:82-85 | the bus read from the packed word fits in 8 bits |
| `PciSlot.Slot.Number` | lib/process_data/src/pci_slot.rs:87-90 | the slot number is always a 5-bit value (< 32) |
| `PciSlot.Slot.Function` | lib/process_data/src/pci_slot.rs:92-95 | the function is always a 3-bit value (< 8) |
| `PciSlot.TryNew` | lib/process_data/src/pci_slot.rs:60-75 | number > 0x1f gives `NumberOutOfBounds(number)` (checked first); otherwise function > 7 gives `FunctionOutOfBounds(function)`; it succeeds iff both are in range, and then the four accessors return exactly the arguments |
| `PciSlot.PackFields` | lib/process_data/src/pci_slot.rs:69-95 | packing in-range fields into one word and reading them back with the shift/mask accessors returns the same four fields, and the word fits in 32 bits |
| `PciSlot.UnpackFields` | lib/process_data/src/pci_slot.rs:77-95 | the four accessors cover every bit: re-packing a slot's fields gives its word |
| `PciSlot.TryNewPacks` | lib/process_data/src/pci_slot.rs:69-74 | for in-range fields `try_new` builds the word domain·2^16 + bus·2^8 + number·2^3 + function |
| `PciSlot.TryNewOfFields` | lib/process_data/src/pci_slot.rs:60-95 | every slot is the one `try_new` builds from its own accessors |
| `PciSlot.FromStr` | lib/process_data/src/pci_slot.rs:120-136 | a split on ':' or '.' into other than four parts is `InvalidFormat`; a parsed slot has the four parts' hex values as its fields |
| `PciSlot.FromStrPartErrors` | lib/process_data/src/pci_slot.rs:129-133 | the first part (domain, bus, number, function order) that is not hex text of its width yields `ParseDomain`/`ParseBus`/`ParseNumber`/`ParseFunction` |
| `PciSlot.SplitToString` | lib/process_data/src/pci_slot.rs:149-158 | the printed text "dddd:bb:nn.f" splits on the separators into exactly the four printed fields |
| `PciSlot.ParseFields` | lib/process_data/src/pci_slot.rs:150-157 | each zero-padded lowercase hex field parses back to the field's value |
| `PciSlot.FromStrOfFields` | lib/process_data/src/pci_slot.rs:120-136 | text that splits into a slot's printed fields parses to that slot |
| `PciSlot.FromStrToString` | lib/process_data/src/pci_slot.rs:139-158 | round trip: `from_str(to_string(slot)) == Ok(slot)` for every slot |
| `PciSlot.OrderIsLexicographic` | lib/process_data/src/pci_slot.rs:37-42 | the derived order on the packed word is the lexicographic order on (domain, bus, number, function) |
| `PciSlot.ToStringInjective` | lib/process_data/src/pci_slot.rs:139-158 | two slots are equal iff they print the same |
| `PciSlot.TestVectors` | lib/process_data/src/pci_slot.rs:168-263 | the unit tests' pairs: (5,1,0x1b,3) prints "0005:01:1b.3"; number 0x20 and function 8 are rejected with their values |
| `PciSlot.Slot.ToString` | lib/process_data/src/pci_slot.rs:139-158 | `Display` writes domain, bus, device and function as 4, 2, 2 and 1 lower-case hex digits; FromStrToString and ToStringInjective state its round trip and injectivity |
| `PciIds.ParsePciIds` | src/utils/pci.rs:80-186 | the line loop (stop at 'C', skip '#' and empty lines, then subdevice/device/vendor by leading tabs, first error returned) yields exactly the tree `Parse` denotes |
| `PciIds.GetDevice` | src/utils/pci.rs:67-69 | `get_device(pid)` is `Some` iff the vendor has a device under `pid`, and then it is that device |
| `PciIds.FromVidPid` | src/utils/pci.rs:39-41 | `from_vid_pid(v, p)` is `Some` iff vendor v exists and has a device with id p, and then it is that device |
| `PciIds.UpdateKeepsWellFormed` | src/utils/pci.rs:91-182 | each accepted subdevice, device or vendor line keeps every vendor under its own id and every device under its own id, naming its vendor |
| `PciIds.AddSubdeviceKeepsWellFormed` | src/utils/pci.rs:91-125 | appending a subdevice keeps the tree well formed |
| `PciIds.AddDeviceKeepsWellFormed` | src/utils/pci.rs:126-158 | inserting a device under the last vendor with that vendor's id keeps the tree well formed |
| `PciIds.AddVendorKeepsWellFormed` | src/utils/pci.rs:159-181 | inserting a vendor under its own id keeps the tree well formed |
| `PciIds.ParseFromKeepsWellFormed` | src/utils/pci.rs:80-186 | every tree the reader produces is well formed |
| `PciIds.LookupIsConsistent` | src/utils/pci.rs:39-47 | a device found by `from_vid_pid` in a parsed tree has that id and that `vendor_id`, and its vendor is present, so `Device::vendor` cannot fail |
| `PciIds.StopsAtClasses` | src/utils/pci.rs:84-86 | lines after the first line starting with 'C' contribute nothing |
| `PciIds.Significant` | src/utils/pci.rs:87-90 | the lines kept after dropping comments and empty lines are no more than the input and none of them is ignored |
| `PciIds.IgnoredLinesDoNotMatter` | src/utils/pci.rs:87-90 | removing comment and empty lines never changes the result |
| `PciIds.OnlyIgnoredLines` | src/utils/pci.rs:231-254 | a file of only comments and empty lines, the empty file included, parses to an empty map |
| `PciIds.OneLine` | src/utils/pci.rs:91-182 | a single subdevice, device or vendor line makes exactly its own update |
| `PciIds.VendorTextFields` | src/utils/pci.rs:159-168 | a vendor line "vvvv  name" is a vendor line whose two-space split is the hex id and the name |
| `PciIds.TwoSpaceSplit` | src/utils/pci.rs:161 | an id without spaces, two spaces and a name without a double space split into exactly [id, name] |
| `PciIds.VendorLineInserts` | src/utils/pci.rs:159-181 | a vendor line inserts or replaces the vendor with that hex id, that name and no devices |
| `PciIds.VendorLineOfParts` | src/utils/pci.rs:159-181 | a vendor line whose fields parse inserts `Vendor(vid, name, {})` at `vid` |
| `PciIds.DeviceTextFields` | src/utils/pci.rs:126-140 | a device line "\tpppp  name" is a device line whose trimmed split is the hex id and the name |
| `PciIds.TrimDeviceLine` | src/utils/pci.rs:126-128 | `trim_start` removes exactly the leading tab of a device line |
| `PciIds.DeviceLineInserts` | src/utils/pci.rs:126-158 | a device line inserts or replaces the device with that id under the vendor with the largest id seen so far, with `vendor_id` set to that id |
| `PciIds.DeviceLineOfParts` | src/utils/pci.rs:126-158 | a device line whose fields parse inserts `Device(pid, lastVid, name, [])` under the last vendor |
| `PciIds.DeviceNeedsVendor` | src/utils/pci.rs:130-133 | a device line with no preceding vendor ends the parse with an error, whatever follows |
| `PciIds.SubdeviceFields` | src/utils/pci.rs:91-112 | a subdevice line "\t\tvvvv pppp  name" splits into the subvendor id, the subdevice id, an empty piece and the name |
| `PciIds.TrimSubdeviceLine` | src/utils/pci.rs:91-93 | `trim_start` removes exactly the two leading tabs of a subdevice line |
| `PciIds.SubdeviceSplit` | src/utils/pci.rs:93 | `splitn(4, ' ')` of "vvvv pppp  name" is [vvvv, pppp, "", name] |
| `PciIds.SplitAfterIdAndPid` | src/utils/pci.rs:93 | the four-piece split after the subvendor id and the subdevice id |
| `PciIds.SplitAfterPid` | src/utils/pci.rs:93 | the three-piece split after the subdevice id keeps the name whole |
| `PciIds.AddSubdeviceOfFields` | src/utils/pci.rs:91-125 | a well-formed subdevice line appends `Subdevice(pid, vid, name)` to the largest-id device of the largest-id vendor, or fails when there is no such device |
| `PciIds.AddSubdeviceOfParts` | src/utils/pci.rs:91-125 | the same, stated on the split pieces: the first field is the `vendor_id`, the second the `id` |
| `PciIds.SubdeviceLineAppends` | src/utils/pci.rs:120-125 | a subdevice line is appended after the existing subdevices (file order) of the last device of the last vendor |
| `PciIds.SubdeviceNeedsDevice` | src/utils/pci.rs:120-123 | a subdevice line with no preceding device (or vendor) ends the parse with an error, whatever follows |
| `PciIds.RejectedLineEndsParse` | src/utils/pci.rs:80-186 | the first line whose update fails ends the whole parse with that error |
| `PciIds.BadIdIsRejected` | src/utils/pci.rs:135-168 | a vendor line, or a device line under a vendor, whose id field is not a hex `u16` ends the parse with an error |
| `PciIds.KindOf` | src/utils/pci.rs:84-180 | the line classes in the order the reader tests them: class section, comment or empty, subdevice, device, vendor; StopsAtClasses and OneLine state what each class does |
| `PciIds.AddSubdevice` | src/utils/pci.rs:91-125 | appends a subdevice to the last device of the last vendor; AddSubdeviceOfFields, SubdeviceNeedsDevice and AddSubdeviceKeepsWellFormed state its result, error and invariant |
| `PciIds.AddDevice` | src/utils/pci.rs:126-158 | inserts a device under the last vendor; DeviceLineInserts, DeviceNeedsVendor and AddDeviceKeepsWellFormed state its result, error and invariant |
| `PciIds.AddVendor` | src/utils/pci.rs:159-181 | inserts a vendor under its id; VendorLineInserts and AddVendorKeepsWellFormed state its result and invariant |
| `PciIds.Update` | src/utils/pci.rs:91-182 | the update of one line by its class; UpdateKeepsWellFormed and RejectedLineEndsParse state its invariant and error path |
| `PciIds.ParseFrom` | src/utils/pci.rs:80-186 | the reader's loop from a given tree; ParseFromKeepsWellFormed and IgnoredLinesDoNotMatter state its invariant and what it skips |
| `PciIds.Parse` | src/utils/pci.rs:80-186 | the tree a whole file gives, starting from the empty tree; OnlyIgnoredLines and LookupIsConsistent state its properties |
| `LinkDisplay.LinkDataToString` | src/utils/link/mod.rs:36-49 | "current / max" exactly when `max` is `Ok` and differs from `current`; otherwise (an `Err` maximum or one equal to `current`) only `current` |
| `LinkDisplay.ShowsMaxIffDifferent` | src/utils/link/mod.rs:37-48 | when no mode's text contains '/', the rendering contains " / " iff the maximum is known and differs |
| `LinkDisplay.EqualMaxRendersLikeNoMax` | src/utils/link/mod.rs:37-47 | a maximum equal to the current mode and an unknown maximum both render as just the current mode |
| `Link.Default` | src/utils/link/mod.rs:14-22 | the default link is `Unknown` |
| `Link.ToString` | src/utils/link/mod.rs:52-65 | `Unknown` renders "N/A"; every other variant renders its `LinkData` with its own mode display |
| `Link.RenderingStartsWithCurrent` | src/utils/link/mod.rs:44-48 | a `LinkData` rendering is never shorter than the current mode's text |
| `Link.NotApplicableIffUnknown` | src/utils/link/mod.rs:52-65 | the text is "N/A" iff the link is `Unknown` |
| `PcieLink.SpeedFromStr` | src/utils/link/pcie.rs:108-120 | an accepted text is exactly the sysfs text of the generation returned; any other text is the error quoting the input |
| `PcieLink.SpeedRoundTrip` | src/utils/link/pcie.rs:108-149 | each of "2.5/5.0/8.0/16.0/32.0/64.0/128.0/256.0 GT/s PCIe" parses to `Pcie10`…`Pcie80` respectively |
| `PcieLink.SpeedToString` | src/utils/link/pcie.rs:86-103 | every generation displays as "PCIe N.0" |
| `PcieLink.SpeedToStringInjective` | src/utils/link/pcie.rs:86-103 | different generations display differently |
| `PcieLink.ToStringInjective` | src/utils/link/pcie.rs:80-84 | "<speed> ×<width>" determines both the speed and the width |
| `PcieLink.ToStringHasNoSlash` | src/utils/link/pcie.rs:80-84 | no PCIe link text contains '/' |
| `PcieLink.ShowsMaxIffDifferentPcie` | src/utils/link/pcie.rs:201-265 | a PCIe link column shows " / " iff the maximum was read and differs from the current link |
| `PcieLink.Parse` | src/utils/link/pcie.rs:70-77 | a parsed link has the speed whose sysfs text was given and the width the text denotes as a `usize`; an unknown speed fails with the speed error; a non-integer width fails with "Could not parse PCIe width" |
| `PcieLink.ParseRoundTrip` | src/utils/link/pcie.rs:70-77 | the kernel's texts for a link parse back to that link |
| `PcieLink.ReadPcieLinkData` | src/utils/link/pcie.rs:37-66 | unreadable current speed or width fails; the result is `Ok` iff the trimmed current pair parses; `max` is parsed only when both max files were read, otherwise it is the "Could not parse max PCIe link" error |
| `PcieLink.MaxIsOptional` | src/utils/link/pcie.rs:49-65 | whether the result is `Ok` never depends on the maximum files |
| `PcieLink.RejectedInputs` | src/utils/link/pcie.rs:151-199 | "999.0 GT/s PCIe", "SOMETHING_ELSE" and "" are rejected, and `parse("random", "noise")` fails |
| `PcieLink.DisplayExample` | src/utils/link/pcie.rs:250-265 | x8 PCIe 4.0 with a x16 PCIe 5.0 maximum renders "PCIe 4.0 ×8 / PCIe 5.0 ×16" |
| `PcieLink.SysfsText` | src/utils/link/pcie.rs:108-120 | the kernel's text for each PCIe generation; SpeedRoundTrip states that parsing it gives that generation back |
| `PcieLink.ToString` | src/utils/link/pcie.rs:80-84 | "PCIe <generation> ×<lanes>"; ToStringInjective and ToStringHasNoSlash state its properties |
| `SataLink.FromStr` | src/utils/link/sata.rs:43-51 | an accepted text is exactly the sysfs text of the speed returned; any other text is the error quoting the input |
| `SataLink.RoundTrip` | src/utils/link/sata.rs:43-88 | "1.5 Gbps", "3.0 Gbps" and "6.0 Gbps" parse to `Sata150`, `Sata300` and `Sata600` |
| `SataLink.ToString` | src/utils/link/sata.rs:54-66 | every speed displays as "SATA-" followed by its three-digit class |
| `SataLink.ToStringInjective` | src/utils/link/sata.rs:54-66 | different speeds display differently ("SATA-150"/"SATA-300"/"SATA-600") |
| `SataLink.ShowsMaxIffDifferentSata` | src/utils/link/sata.rs:54-66 | a SATA link column shows " / " iff a maximum was read and differs from the current speed |
| `SataLink.FromAtaSlot` | src/utils/link/sata.rs:18-37 | an unreadable or unparseable current speed fails the whole result; a bad maximum is only stored as `Err` in `max` |
| `SataLink.RejectedInputs` | src/utils/link/sata.rs:90-101 | "4.0 Gbps", "SOMETHING_ELSE" and "" are rejected |
| `UsbLink.FromStr` | src/utils/link/usb.rs:84-99 | a rejected text yields the error quoting the input |
| `UsbLink.AcceptsExactlyKernelRates` | src/utils/link/usb.rs:84-99 | the parser accepts exactly "1.5", "12", "480", "5000", "10000", "20000", "40000", "80000" and "120000" |
| `UsbLink.Usb4Version2Rates` | src/utils/link/usb.rs:95-96 | "80000" and "120000" both map to `Usb4_2_0`, distinguished only by the payload |
| `UsbLink.PayloadIsInput` | src/utils/link/usb.rs:88-96 | for every accepted text but "1.5" the Mbit payload is the number the text denotes, in both directions (printing and parsing) |
| `UsbLink.LabelIsGeneration` | src/utils/link/usb.rs:57-66 | two speeds share a version label iff they are the same generation, whatever their payloads |
| `UsbLink.RateArguments` | src/utils/link/usb.rs:67-77 | USB 1.0 shows 1.5 Mbit/s with one decimal place; every other generation shows payload × 10^6 bit/s with none |
| `UsbLink.ToString` | src/utils/link/usb.rs:51-80 | the display is the version label followed by " (rate)" |
| `UsbLink.FromUsbSlot` | src/utils/link/usb.rs:24-48 | the device speed is required (unreadable or unparseable fails); the bus speed is the maximum, kept as `Err` when unreadable or unparseable |
| `UsbLink.RejectedInputs` | src/utils/link/usb.rs:130-141 | "4000", "160000", "SOMETHING_ELSE" and "" are rejected |
| `SataLink.SysfsText` | src/utils/link/sata.rs:43-51 | the kernel's text for each SATA speed; RoundTrip states that parsing it gives that speed back |
| `UsbLink.VersionLabel` | src/utils/link/usb.rs:57-66 | the USB generation label of each speed; LabelIsGeneration states which label each speed gets |
| `WifiLink.Generation` | src/utils/link/wifi.rs:39-59 | no MCS field gives `None`; `eht_mcs` gives `Wifi7` whatever else is set; otherwise `he_mcs` gives `Wifi6e` iff 5925 ≤ MHz ≤ 7125, else `Wifi6`; otherwise `vht_mcs` gives `Wifi5`; otherwise `ht_mcs` gives `Wifi4` |
| `WifiLink.GetWifiGeneration` | src/utils/link/wifi.rs:39-59 | the step-by-step overwrites of the local compute exactly the priority rule `Generation` |
| `WifiLink.FrequencyMattersOnlyForHe` | src/utils/link/wifi.rs:48-54 | the frequency changes the generation only when HE is reported without EHT |
| `WifiLink.GenerationToStringInjective` | src/utils/link/wifi.rs:62-76 | the fixed strings "Wi-Fi 4 (802.11n)" … "Wi-Fi 7 (802.11be)" are pairwise different |
| `WifiLink.BandOf` | src/utils/link/wifi.rs:143-148 | the band classification: 0 is no frequency; 2400–2495, 5150–5895 and 5925–7125 MHz are the 2.4, 5 and 6 GHz bands (each an iff) |
| `WifiLink.FrequencyDisplay` | src/utils/link/wifi.rs:141-150 | 0 → "", 2.4 GHz band → "2.4 GHz", 5 GHz band → "5 GHz", 6 GHz band → "6 GHz", anything else → the formatter applied to the frequency in Hz |
| `WifiLink.Wifi6eShowsSixGHz` | src/utils/link/wifi.rs:48-54 | a link classified Wi-Fi 6E is always shown on the "6 GHz" band |
| `WifiLink.SaturatingMulU32` | src/utils/link/wifi.rs:121-122 | `u32::saturating_mul`: the product when it fits in 32 bits, `u32::MAX` otherwise |
| `WifiLink.BitsPerSecond` | src/utils/link/wifi.rs:121-122 | a missing bit rate is 0; a rate ≤ 42949 (×100 kbit/s) is rate × 100 000; a larger one saturates at `u32::MAX` |
| `WifiLink.ToString` | src/utils/link/wifi.rs:163-176 | the generation's text (or "N/A") and the band, joined by " · " |
| `WifiLink.FromWifiAdapter` | src/utils/link/wifi.rs:79-137 | a non-`Wlan` interface is rejected; the result is `Ok` iff the interface is found and has a station; the first station's generation, frequency, saturated rx/tx rates and the SSID are reported, with no maximum |
| `WifiLink.WifiShowsOnlyCurrent` | src/utils/link/wifi.rs:123-132 | a Wi-Fi link is always displayed without a maximum |
| `LegacyLink.SpeedFromStr` | src/utils/link.rs:244-255 | a rejected speed text yields the error quoting the input |
| `LegacyLink.Upgrade` | src/utils/link.rs:223-239 | every generation of this revision is one of the newer table's generations other than PCIe 8.0 |
| `LegacyLink.AgreesWithNewerTable` | src/utils/link.rs:223-255 | this revision accepts exactly the newer table's texts without "256.0 GT/s PCIe", reads each as the same generation, and displays each generation the same ("PCIe 1.0"…"PCIe 7.0") |
| `LegacyLink.RejectedInputs` | src/utils/link.rs:380-427 | "2.5 GT/s PCIe" → `Pcie10`, "128.0 GT/s PCIe" → `Pcie70`; "256.0 GT/s PCIe", "SOMETHING_ELSE" and "" are rejected, and `parse("random", "noise")` fails |
| `LegacyLink.ToStringAgrees` | src/utils/link.rs:217-221 | link data render as "<speed> ×<width>", as in the newer module |
| `LegacyLink.Parse` | src/utils/link.rs:133-141 | `Ok` iff the speed text is accepted and the width is a `usize`; the result carries exactly those two values |
| `LegacyLink.ReadPcieLinkData` | src/utils/link.rs:101-130 | `Ok` iff both current files were read and parse; `max` is parsed only when both max files were read, otherwise it is the "Could not parse max PCIe link" error |
| `LegacyLink.Pcie8Link` | src/utils/link.rs:101-130 | in this revision a 256 GT/s current link makes the whole result an error, while a 256 GT/s maximum only turns `max` into the speed error |
| `WifiLink.GenerationToString` | src/utils/link/wifi.rs:62-76 | the name of each Wi-Fi generation; GenerationToStringInjective states that no two share one |
| `LegacyLink.SpeedToString` | src/utils/link.rs:223-239 | `Display for PcieSpeed` in the older revision; AgreesWithNewerTable states that it agrees with the newer table |
| `LegacyLink.ToString` | src/utils/link.rs:217-221 | "PCIe <generation> ×<lanes>" in the older revision; ToStringAgrees states that it agrees with the newer one |
| `GpuUsage.Greater` | lib/process_data/src/gpu_usage.rs:235-326 | on two samples of the same driver the result dominates both in every counter; on different drivers it is `self` unchanged; the result keeps `self`'s driver |
| `GpuUsage.GreaterIsLeastUpperBound` | lib/process_data/src/gpu_usage.rs:236-323 | any sample dominating both inputs dominates the merge, so the merge is the counter-wise maximum |
| `GpuUsage.DominatesReflexive` | lib/process_data/src/gpu_usage.rs:236-323 | every sample dominates itself |
| `GpuUsage.DominatesTransitive` | lib/process_data/src/gpu_usage.rs:236-323 | dominance is transitive |
| `GpuUsage.GreaterIdempotentCommutative` | lib/process_data/src/gpu_usage.rs:236-323 | `greater(a, a) == a`, and `greater` is commutative on samples of the same driver |
| `GpuUsage.GreaterAssociative` | lib/process_data/src/gpu_usage.rs:236-323 | `greater` is associative on samples of one driver, so folding a process's samples in any order gives the same result |
| `GpuUsage.Mem` | lib/process_data/src/gpu_usage.rs:225-233 | `None` exactly for `I915Stats`, otherwise `Some(mem_bytes)` |
| `GpuUsage.NsFraction` | lib/process_data/src/gpu_usage.rs:117 | busy-ns delta over `time_delta * 1_000_000`; a counter that did not advance gives numerator 0 (saturating) |
| `GpuUsage.GfxFraction` | lib/process_data/src/gpu_usage.rs:91-141 | `Some` iff both samples are of the same driver; for NVIDIA it is the current percentage / 100 |
| `GpuUsage.EncFraction` | lib/process_data/src/gpu_usage.rs:143-185 | `Some` iff both samples are of the same driver and it is not V3D; for NVIDIA it is the current percentage / 100 |
| `GpuUsage.DecFraction` | lib/process_data/src/gpu_usage.rs:189-223 | `Some` iff both samples are of the same driver and it is neither i915 nor V3D; for NVIDIA it is the current percentage / 100 |
| `GpuUsage.NvidiaIgnoresOldSample` | lib/process_data/src/gpu_usage.rs:119-121 | for NVIDIA the three fractions do not depend on the old sample or the interval |
| `GpuUsage.XeDecodeIsEncode` | lib/process_data/src/gpu_usage.rs:187-220 | for Xe (one media engine) the decoder fraction equals the encoder fraction |
| `GpuUsage.StalledCounterGivesZero` | lib/process_data/src/gpu_usage.rs:117 | an AMD graphics counter that went backwards or stalled gives a zero share, never a negative one |
| `NpuUsage.DeltaNs` | lib/process_data/src/npu_usage.rs:10-16 | `None` iff `time_delta == 0`; otherwise the denominator is `time_delta * 1_000_000` and the numerator is `a - b`, or 0 when `a ≤ b` |
| `NpuUsage.UsageFraction` | lib/process_data/src/npu_usage.rs:18-25 | `None` iff `time_delta == 0`; the numerator never exceeds the new counter |
| `NpuUsage.Mem` | lib/process_data/src/npu_usage.rs:27-31 | an NPU sample always reports its memory (unlike i915's `None`); MemOfGreater states what a merged sample reports |
| `NpuUsage.MemOfGreater` | lib/process_data/src/npu_usage.rs:27-49 | the memory a merged sample reports is the larger of the two samples' memory: at least each, and equal to one of them |
| `NpuUsage.Greater` | lib/process_data/src/npu_usage.rs:33-49 | each result field is ≥ both inputs' and equal to one of them (field-wise maximum) |
| `NpuUsage.GreaterLaws` | lib/process_data/src/npu_usage.rs:33-49 | `greater` is idempotent, commutative and associative |
| ProcessData.HexValue | lib/process_data/src/lib.rs:234-241 | an ASCII hex digit (either case) has a value below 16; any other byte is rejected |
| ProcessData.Unescaped | lib/process_data/src/lib.rs:243-255 | decoding `\xHH` escapes never makes the text longer |
| ProcessData.DecodeHexEscapes | lib/process_data/src/lib.rs:228-258 | the byte loop succeeds exactly when every complete `\x` escape has two hex digits and the decoded bytes are valid UTF-8, and then returns the decoded bytes |
| ProcessData.UnescapedWithoutBackslash | lib/process_data/src/lib.rs:243-255 | text without a backslash decodes to itself |
| ProcessData.UnescapeEscaped | lib/process_data/src/lib.rs:243-255 | escaping every byte as `\xHH` and decoding gives the original bytes back (round trip) |
| ProcessData.BadEscapeFails | lib/process_data/src/lib.rs:248 | a complete `\x` escape whose digits are not hex makes the whole decoding fail |
| ProcessData.FdinfoEntryNeedsColon | lib/process_data/src/lib.rs:629-630 | an fdinfo line yields an entry exactly when it holds a colon, and the entry is the trimmed text before and after the first colon |
| ProcessData.Entries | lib/process_data/src/lib.rs:628-630 | one optional entry per line, in line order |
| ProcessData.EntryMapKeys | lib/process_data/src/lib.rs:625-631 | a key is in the collected map exactly when some line carries it |
| ProcessData.EntryMapLastWins | lib/process_data/src/lib.rs:625-631 | a key maps to the value of the last entry that carries it |
| ProcessData.FdinfoKeys | lib/process_data/src/lib.rs:624-632 | a key is in the parsed fdinfo exactly when some line of the file carries it |
| ProcessData.FdinfoLastWins | lib/process_data/src/lib.rs:624-632 | the parsed fdinfo keeps the value of the last line carrying a key |
| ProcessData.FdinfoEntryRoundTrip | lib/process_data/src/lib.rs:629-630 | the kernel's `key:<tab>value` line is read back as exactly that key and value |
| ProcessData.NibbleOf | lib/process_data/src/lib.rs:414 | every character of the affinity mask is read as a value below 16 |
| ProcessData.ExpandAffinity | lib/process_data/src/lib.rs:407-424 | the affinity vector has min(CPU count, 4 × mask digits) entries and entry i is bit i of the mask, reading digits from the last one (least significant first) |
| ProcessData.ExpandMaskOf | lib/process_data/src/lib.rs:407-424 | for a mask written from a CPU set, bit i is set exactly when CPU i is in the set (mask and affinity agree) |
| ProcessData.StatFieldsOfLine | lib/process_data/src/lib.rs:360-367 | splitting after the last `)` and on spaces, skipping the first empty piece, gives back the fields after the executable name |
| ProcessData.AfterLastParen | lib/process_data/src/lib.rs:361-362 | the text after the last `)` is the space-joined field list, whatever the executable name holds |
| ProcessData.SpacedWithoutParen | lib/process_data/src/lib.rs:361-362 | fields free of `)` joined by spaces hold no `)` |
| ProcessData.ParenTailOf | lib/process_data/src/lib.rs:361-362 | the last `)` split yields the text after the final `)` |
| ProcessData.SpaceSeparated | lib/process_data/src/lib.rs:365-366 | splitting a leading-space joined list on spaces and skipping the first piece gives the list back |
| ProcessData.JoinWithout | lib/process_data/src/lib.rs:365 | joining parts that avoid a character, with a different separator, avoids that character |
| ProcessData.StatField | lib/process_data/src/lib.rs:372-376 | a missing field is the error "wrong stat file format"; a present field succeeds exactly when it parses |
| ProcessData.ParseU64 | lib/process_data/src/lib.rs:379-383 | a parsed `u64` lies in 0 .. 2^64 - 1 |
| ProcessData.ParseStat | lib/process_data/src/lib.rs:372-405 | parsing succeeds exactly when fields 1, 11, 12, 16 and 19 after the name are present and parse (i32, u64, u64, niceness, u64), and then the values are those fields; too few fields give "wrong stat file format" |
| ProcessData.StatSelectsProcFields | lib/process_data/src/lib.rs:25-30 | the selected values are proc(5) stat fields 3, 13, 14, 18 and 21 of the whole line, whatever the executable name |
| ProcessData.ContainerizationOf | lib/process_data/src/lib.rs:462-477 | Snap exactly for a `/snap/` command line; otherwise Portable exactly for the marker or launcher; otherwise Flatpak exactly for its marker or launcher; otherwise AppImage exactly for an `APPIMAGE` path; Bare exactly when none of these holds (the tests are taken in this order) |
| ProcessData.ParseFdinfo | lib/process_data/src/lib.rs:624-632 | the map of the trimmed key and value of every line holding a colon; FdinfoKeys and FdinfoLastWins state which keys it holds and which value wins |
| ProcessData.ParseNiceness | lib/process_data/src/lib.rs:155-178 | a parsed niceness lies in -20..19, the range the `Niceness` type validates |
| DrmUsage.DigitRun | lib/process_data/src/lib.rs:66-70 | the digit run is the longest prefix of decimal digits: a prefix, all digits, followed by a non-digit or the end |
| DrmUsage.FirstCapture | lib/process_data/src/lib.rs:66-70 | a capture of `(\d+)\s*unit` is a non-empty string of decimal digits |
| DrmUsage.DigitRunOf | lib/process_data/src/lib.rs:66-70 | a digit run stops at the first non-digit |
| DrmUsage.KernelFieldCapture | lib/process_data/src/lib.rs:834-838 | a field the kernel writes as "<n> <unit>" captures exactly the decimal digits of n |
| DrmUsage.DrmValue | lib/process_data/src/lib.rs:834-839 | a field contributes a value only when it is present, and the value fits in a `u64` |
| DrmUsage.ParseDrmFields | lib/process_data/src/lib.rs:826-842 | when none of the listed fields is present and matching, the sum is 0 |
| DrmUsage.DrmFieldsSum | lib/process_data/src/lib.rs:826-842 | fields written by the kernel as "<n> <unit>" add up to the sum of their numbers |
| DrmUsage.TwoFieldSum | lib/process_data/src/lib.rs:826-842 | two kernel-written fields add up to the sum of their numbers |
| DrmUsage.MemBytes | lib/process_data/src/lib.rs:753-758 | the memory in bytes is the KiB sum times 1024, saturating, so always below 2^64 |
| DrmUsage.ExtractGpuUsage | lib/process_data/src/lib.rs:727-824 | no `drm-driver` key is the error "unable to find gpu information in this fdinfo"; a sample exists exactly for amdgpu, i915, v3d and xe, with the variant of that driver; the identifier is the `drm-pdev` slot when it parses and the default identifier otherwise |
| DrmUsage.AmdgpuGfxFields | lib/process_data/src/lib.rs:72-79 | amdgpu's graphics time is read from the compute and gfx engine fields |
| DrmUsage.AmdgpuGraphicsTime | lib/process_data/src/lib.rs:740-744 | an amdgpu file's graphics time is the sum of its compute and gfx engine nanoseconds |
| DrmUsage.ExtractNpuUsage | lib/process_data/src/lib.rs:664-695 | no `drm-driver` key is the error "unable to find gpu information in this fdinfo"; a sample exists exactly for amdxdna_accel_driver; the slot defaults to 0000:00:00.0 |
| DrmUsage.GpuSamples | lib/process_data/src/lib.rs:703-704 | one extraction result per fdinfo file, in order |
| DrmUsage.NpuSamples | lib/process_data/src/lib.rs:640-641 | one extraction result per fdinfo file, in order |
| DrmUsage.MergeGpuStep | lib/process_data/src/lib.rs:709-714 | one more sample inserts itself, or is merged with `greater` into the existing entry of its identifier; a failure changes nothing |
| DrmUsage.OtherGpuUsageStats | lib/process_data/src/lib.rs:697-725 | the loop returns the merged map of all samples, and adds to the non-GPU cache exactly the (pid, fd) keys of the files that gave no sample |
| DrmUsage.FailedKeysStep | lib/process_data/src/lib.rs:715-721 | one more file adds its (pid, fd) key to the cache exactly when its extraction failed |
| DrmUsage.MergeGpuKeys | lib/process_data/src/lib.rs:703-714 | a device is in the GPU map exactly when some file gave a sample for it |
| DrmUsage.MergedDriver | lib/process_data/src/lib.rs:709-714 | when all of a device's samples come from one driver, so does its merged sample |
| DrmUsage.MergeGpuDominates | lib/process_data/src/lib.rs:709-714 | when a device's samples share a driver, its merged sample is at least every one of them in every counter |
| DrmUsage.MergeNpuStep | lib/process_data/src/lib.rs:646-651 | one more NPU sample inserts itself or is merged with `greater` into its slot's entry |
| DrmUsage.NpuUsageStatsOf | lib/process_data/src/lib.rs:634-662 | the loop returns the merged NPU map and adds exactly the failed files' keys to the non-NPU cache |
| DrmUsage.MergeNpuDominates | lib/process_data/src/lib.rs:646-651 | every NPU sample's slot is in the map, and the merged usage and memory are at least the sample's |
| Process.ExecutablePath | src/utils/process.rs:136-142 | the executable path is a prefix of the command line and holds no NUL |
| Process.ExecutablePathOfArguments | src/utils/process.rs:136-142 | a NUL-separated command line yields its first argument as the path |
| Process.ExecutablePathOfChromiumStyle | src/utils/process.rs:140 | a space-separated (Chromium-style) command line is cut before its first " --" |
| Process.SplitStrFirstPiece | src/utils/process.rs:140 | the first piece of a split on " --" is a prefix of the text |
| Process.ExecutableName | src/utils/process.rs:144-148 | the executable name is the part of the path after its last `/`: a suffix with no `/`, preceded by `/` when shorter than the path |
| Process.DisplayName | src/utils/process.rs:162-166 | the display name always starts with `comm`, and is the executable name exactly when that name starts with `comm` |
| Process.FreshProcessNames | src/utils/process.rs:135-180 | a new process's path comes from its own command line, its name ends the path without `/`, and its display name starts with `comm` |
| Process.FiniteOrZero | src/utils/process.rs:362 | a division by zero becomes 0; any other quotient is kept |
| Process.CpuTimeRatio | src/utils/process.rs:346-364 | no previous CPU time gives 0; CPU time that did not grow gives 0; the ratio never divides by zero |
| Process.Speed | src/utils/process.rs:367-381 | a speed exists exactly when both byte counters exist; a first sample gives 0; a counter that did not grow gives 0 |
| Process.ReadSpeed | src/utils/process.rs:367-381 | a read speed exists exactly when the current and last read counters exist; 0 before the first update |
| Process.WriteSpeed | src/utils/process.rs:384-398 | a write speed exists exactly when the current and last write counters exist; 0 before the first update |
| Process.FreshProcessRates | src/utils/process.rs:150-160 | a new process reports no CPU use, and a speed of 0 for exactly the I/O counters it has |
| Process.EngineUsage | src/utils/process.rs:401-443 | the loop over the process's GPUs sums, device by device, the engine fraction against the last sample of the same device, 0 for a device without one |
| Process.UsageWithoutHistory | src/utils/process.rs:404 | without a previous sample of any GPU the usage is 0 |
| Process.UsageNonNegative | src/utils/process.rs:401-413 | a finite GPU usage is never negative |
| Process.GpuMemUsageBound | src/utils/process.rs:446-452 | the GPU memory total is at least the memory of each GPU that reports memory |
| Process.MaybePkexec | src/utils/process.rs:223-258 | an exit code of EPERM or EACCES is replaced by the outcome of the pkexec retry; any other outcome is kept |
| Process.ExecuteProcessAction | src/utils/process.rs:322-342 | an action succeeds exactly when the helper exits with 0 or 3; a failure to run it is passed on |
| Process.AdjustResult | src/utils/process.rs:291-302 | an adjustment succeeds exactly when the helper exits with 0; a failure to run it is passed on |
| Process.ActionRetriedWithPkexec | src/utils/process.rs:223-258 | an action refused for lack of permission succeeds exactly when the pkexec retry exits with 0 or 3 |
| Process.KillArguments | src/utils/process.rs:317-320 | the kill helper gets two arguments: the pid as text first, then the action name |
| Process.AffinityString | src/utils/process.rs:275-278 | one character per CPU, `1` exactly for the CPUs in the affinity and `0` otherwise |
| Process.AdjustArguments | src/utils/process.rs:282-289 | the adjust helper gets the pid, the niceness and the affinity string, in that order |
| Process.SanitizeCmdline | src/utils/process.rs:469-476 | an empty command line gives none; otherwise every NUL becomes a space and every other character is kept |
| Process.ReadExact | src/utils/process.rs:110 | reading n bytes takes exactly the next n bytes off the pipe into a new buffer, or fails with "failed to fill whole buffer" when the pipe ends first |
| Process.AllData | src/utils/process.rs:95-120 | the reply is the payload of the next length-prefixed frame and the rest stays in the pipe; a short pipe is an error |
| Process.FromProcessData | src/utils/process.rs:135-180 | a new process keeps the scanned data, has the generic icon, no CPU or GPU history, and an I/O baseline of 0 for exactly the counters it has; FreshProcessNames states its names |
| Process.GpuMemUsage | src/utils/process.rs:446-452 | the sum of the memory of every GPU sample, a GPU without memory counting 0; GpuMemUsageBound states that each GPU's memory is part of it |
| Process.ActionName | src/utils/process.rs:79-86 | the derived `Display` of `ProcessAction`: TERM, STOP, KILL, CONT; KillArguments passes it as the second argument |
| Process.Frame | src/utils/process.rs:95-120 | a frame is an error ("failed to fill whole buffer") exactly when the pipe is shorter than the length prefix or than the length it announces; otherwise the pipe is the prefix, then a payload of the announced length, then the rest |
| Companion.LeBytes | src/bin/resources-processes.rs:77 | the little-endian encoding of a length has exactly the requested number of bytes |
| Companion.LeRoundTrip | src/bin/resources-processes.rs:77 | reading little-endian bytes back gives the length that was written, when it fits |
| Companion.UsizeWidth | src/bin/resources-processes.rs:77 | eight bytes hold exactly the `usize` range 0 .. 2^64 - 1 |
| Companion.FrameBytes | src/bin/resources-processes.rs:77-87 | a frame is eight length bytes followed by the payload |
| Companion.FrameRoundTrip | src/bin/resources-processes.rs:77-87 | the application's reader gets back exactly the payload of a frame, and what follows it stays in the pipe |
| Companion.ReadFramesOf | src/bin/resources-processes.rs:45-52 | frames written one after another are read back one after another, in order |
| Companion.FramesFromStart | src/bin/resources-processes.rs:45-52 | writing the frames front to back or back to front gives the same bytes |
| Companion.FramesFromSplit | src/bin/resources-processes.rs:45-52 | the frames of a list are those of all but the last payload followed by the last payload's frame |
| Companion.ReadBackAll | src/bin/resources-processes.rs:45-92 | the application reads back exactly the payloads the companion wrote, in order |
| Companion.Serve | src/bin/resources-processes.rs:27-53 | with `once` the output is one frame; otherwise it is one frame per byte read from standard input, in order |
| Companion.OneFramePerRequest | src/bin/resources-processes.rs:45-52 | in loop mode every request byte yields a frame and all of them read back as the scans that produced them |
| KillHelper.SignalOf | src/bin/resources-kill.rs:9-15 | a signal exists exactly for STOP, CONT, TERM and KILL |
| KillHelper.Request | src/bin/resources-kill.rs:8-25 | missing arguments or an unparsable pid exit with 255; an unknown action with a valid pid exits with 254; otherwise the named signal goes to the parsed pid |
| KillHelper.ExitCode | src/bin/resources-kill.rs:16-25 | the exit code is the argument error, 0 on delivery, 253 for nix's unknown errno, and the errno otherwise |
| KillHelper.DoneExitCodes | src/bin/resources-kill.rs:16-23 | a delivered signal and a process already gone (ESRCH, 3) are both successes for the application |
| KillHelper.RequestOfArguments | src/bin/resources-kill.rs:8-15 | an action name followed by the text of any `i32` pid is accepted as that signal and pid |
| AdjustHelper.Request | src/bin/resources-adjust.rs:9-11 | a request exists exactly when pid and niceness parse as `i32` after trimming and a mask is present; its fields are those values |
| AdjustHelper.BuildCpuSet | src/bin/resources-adjust.rs:12-18 | CPU i is in the set exactly when mask position i is `1`, for every i below the CPU set size |
| AdjustHelper.Run | src/bin/resources-adjust.rs:8-35 | bad arguments exit with 255 and change nothing; otherwise the process's pid gets the niceness and exactly the CPUs the mask selects, and the exit code is the OS error |
| AdjustHelper.AdjustArgumentsDecode | src/utils/process.rs:282-289 | the application's pid, niceness and affinity reach the helper intact, and it allows exactly the CPUs whose affinity entry is set |
| Companion.Frames | src/bin/resources-processes.rs:45-52 | the frames of several payloads, one after another: at least eight bytes per payload; ReadFramesOf reads them back |
| Companion.ReadFrames | src/bin/resources-processes.rs:45-52 | reading `count` frames gives exactly `count` payloads or the short-read error; ReadFramesOf states that it reads back what Frames wrote |
| AppGroups.Get | src/utils/app.rs:108-112 | a desktop-file key gives its value exactly when the key is present |
| AppGroups.FromDesktopFile | src/utils/app.rs:85-115 | a load error is passed on; no "Desktop Entry" section and no id (neither `X-Flatpak` nor a file stem) are the two errors; otherwise the id is `X-Flatpak` or the stem, the name defaults to the id, the icon to "generic-process", and command line and description are the `Exec` and `Comment` keys |
| AppGroups.CommandExecutableName | src/utils/app.rs:249-255 | the executable an application's command line names is its first space-separated word after the last `/`: no space, no `/`, and a suffix of that word |
| AppGroups.FirstMatch | src/utils/app.rs:243-264 | the search returns the first application, in the map's order, whose command line matches, or the end when none does |
| AppGroups.Associate | src/utils/app.rs:229-269 | the cgroup id wins, then the executable path, then the executable name; only then the first application whose command line is the path or names the executable (directly or through the firefox-bin exception); none when nothing matches |
| AppGroups.MemberProcesses | src/utils/app.rs:141-152 | an application's processes are exactly the alive processes of the context whose pid it lists |
| AppGroups.Total | src/utils/app.rs:155-166 | a sum is at least each of its terms, and 0 when all terms are 0 |
| AppGroups.CpuTimeTimestamp | src/utils/app.rs:169-175 | the timestamp is the floor of the alive members' timestamp sum divided by the number of listed pids, and 0 for an empty list |
| AppGroups.FloorDivision | src/utils/app.rs:173 | integer division rounds down: the quotient times the divisor is at most the dividend and one more is above it |
| AppGroups.IsRunningIff | src/utils/app.rs:137-139 | an application is running exactly when one of its pids belongs to an alive process |
| AppGroups.NotRunningIsIdle | src/utils/app.rs:155-166 | an application that is not running uses no memory and no CPU time |
| AppGroups.MemberMemoryCounted | src/utils/app.rs:155-166 | every alive member's memory and CPU time count towards the application's |
| AppGroups.Pids | src/utils/app.rs:118-121 | the pid list of some processes, one per process, in order |
| AppGroups.Without | src/utils/app.rs:132-134 | removing a pid keeps exactly the other pids, and changes nothing when the pid is absent |
| AppGroups.App.constructor | src/utils/app.rs:107-114 | a new application has its desktop-file data and no pids |
| AppGroups.App.AddProcess | src/utils/app.rs:127-130 | the process takes the application's icon and its pid is appended to the list |
| AppGroups.App.RemoveProcess | src/utils/app.rs:132-134 | every occurrence of the pid leaves the list, the others stay in order |
| AppGroups.App.Refresh | src/utils/app.rs:117-122 | the list becomes the pids of the alive member processes |
| AppGroups.RefreshKeepsAliveMembers | src/utils/app.rs:117-122 | after a refresh the list holds exactly the member pids whose process is alive |
| AppGroups.RolledAsWritten | src/utils/app.rs:400-404 | a known pid's previous CPU time and timestamp become its baseline, its sample is replaced and its `alive` flag is left as it was |
| AppGroups.Rolled | src/utils/app.rs:400-404 | corrected: as above, and a pid seen again is alive again |
| AppGroups.Gathered | src/utils/app.rs:397-425 | corrected roll-over (Findings, app.rs:400-404), not the code as written: taking in one gathered process keeps the applications' set of pid lists |
| AppGroups.GatherAll | src/utils/app.rs:397-426 | corrected roll-over (Findings, app.rs:400-404), not the code as written: taking in all gathered processes keeps the applications' set of pid lists |
| AppGroups.PidSet | src/utils/app.rs:398 | the pids seen are exactly those of the gathered processes |
| AppGroups.MarkDead | src/utils/app.rs:428-434 | no process is removed; those whose pid was not seen are marked dead and the others are unchanged |
| AppGroups.GatheredConsistent | src/utils/app.rs:397-425 | taking in one process keeps the context consistent: processes keyed by pid, owned pids known, listed pids owned, no pid in two applications |
| AppGroups.GatherAllConsistent | src/utils/app.rs:397-426 | taking in all gathered processes keeps the context consistent |
| AppGroups.RefreshedConsistent | src/utils/app.rs:393-434 | a whole refresh keeps the context consistent |
| AppGroups.NewPidJoinsAssociatedApp | src/utils/app.rs:405-425 | a new pid is stored; when some application is associated with it, it joins that application's list only, is owned and takes its icon; otherwise no list changes |
| AppGroups.GatherAllKeepsKeys | src/utils/app.rs:397-426 | taking in gathered processes never drops a known pid |
| AppGroups.RefreshedMarksMissing | src/utils/app.rs:428-434 | a refresh removes no process and leaves every pid the gather missed dead |
| AppGroups.GatherAllSeenAlive | src/utils/app.rs:397-426 | with the corrected roll-over every gathered pid is stored and alive after the gather |
| AppGroups.RefreshedSeenAlive | src/utils/app.rs:393-434 | with the corrected roll-over every gathered pid is alive after a refresh, even one an earlier refresh marked dead |
| AppGroups.SeenAgainStaysDeadAsWritten | src/utils/app.rs:400-404 | as written, a pid marked dead stays dead when a later gather sees it again; the corrected roll-over makes it alive |
| AppGroups.AppsContext.Infos | src/utils/app.rs:216-227 | the applications' desktop-file data, keyed by the same ids |
| AppGroups.AppsContext.constructor | src/utils/app.rs:216-227 | every desktop file's id names an application built from one of the files, with no pids; there are no processes and no owned pids |
| AppGroups.AppsContext.Take | src/utils/app.rs:397-425 | corrected roll-over (Findings, app.rs:400-404), not the code as written: the loop body for one gathered process changes the context as `Gathered` says and keeps it valid |
| AppGroups.AppsContext.Adopt | src/utils/app.rs:414-424 | a new pid is owned, appended to its application's list and stored with that application's icon |
| AppGroups.AppsContext.MarkMissing | src/utils/app.rs:428-434 | the second loop marks dead exactly the processes whose pid was not seen and changes nothing else |
| AppGroups.AppsContext.TakeAll | src/utils/app.rs:394-426 | corrected roll-over (Findings, app.rs:400-404), not the code as written: the first loop takes in every gathered process in order, keeps the context valid and collects exactly their pids |
| AppGroups.AppsContext.Refresh | src/utils/app.rs:393-434 | corrected roll-over (Findings, app.rs:400-404), not the code as written: a refresh changes the context as `Refreshed` says and keeps it valid |
| AppGroups.ListedIds | src/utils/app.rs:329 | the listed applications are exactly those that are running and whose id does not start with "xdg-desktop-portal" |
| AppGroups.AppPids | src/utils/app.rs:324-333 | the pids taken by listed applications are exactly the alive processes some listed application lists |
| AppGroups.Outside | src/utils/app.rs:370-374 | the processes counted as system processes are alive and taken by no listed application |
| AppGroups.ItemOf | src/utils/app.rs:330-360 | an application's item carries its id and memory, and is Flatpak exactly when one of its alive processes with a command line not starting "bwrap" runs under Flatpak |
| AppGroups.SystemItem | src/utils/app.rs:364-388 | the "System Processes" item has no id, the memory of the alive processes outside the listed applications, and counts every stored process, dead ones included |
| AppGroups.AppItems | src/utils/app.rs:323-390 | one item per listed application keyed by its id, and always the system item under no id |
| AppGroups.TotalSnoc | src/utils/app.rs:155-159 | a sum over one more process adds that process's value |
| AppGroups.MemoryUsageSnoc | src/utils/app.rs:155-159 | one more process in the iteration adds its memory to an application exactly when it is an alive member |
| AppGroups.OutsideSnoc | src/utils/app.rs:370-374 | one more process adds its memory to the system item exactly when it is alive and not taken |
| AppGroups.ListedMemorySnoc | src/utils/app.rs:323-362 | with disjoint pid lists one more process adds its memory to the listed applications at most once |
| AppGroups.NothingListedYet | src/utils/app.rs:323-362 | before any process is counted the listed applications hold no memory |
| AppGroups.MemoryPartition | src/utils/app.rs:323-374 | every alive process's memory is counted once, by the listed applications or by the system item |
| AppGroups.ItemsMemoryListed | src/utils/app.rs:323-362 | the application items report the memory the listed applications hold |
| AppGroups.AppItemsCountMemoryOnce | src/utils/app.rs:323-390 | the items' memory together is the memory of all alive processes: each is counted exactly once |
| AppGroups.IsRunning | src/utils/app.rs:137-139 | some member process is alive; IsRunningIff states it |
| AppGroups.MemoryUsage | src/utils/app.rs:155-160 | the memory of the alive members; MemberMemoryCounted and NotRunningIsIdle state its properties |
| AppGroups.CpuTime | src/utils/app.rs:162-167 | the CPU time of the alive members; NotRunningIsIdle states that a stopped application has none |
| AppGroups.Refreshed | src/utils/app.rs:393-434 | corrected roll-over (Findings, app.rs:400-404), not the code as written: the context after a refresh; RefreshedConsistent, RefreshedMarksMissing and RefreshedSeenAlive state its properties |
| LegacyProcesses.FirstWithPrefix | src/utils/processes.rs:117 | the search stops at the first line starting with the prefix, every line before it does not, and the end means none does |
| LegacyProcesses.LastSegmentIsUnit | src/utils/processes.rs:128-130 | the last '/'-segment of a line ending in ".service" itself ends in ".service", so cutting the 8-byte suffix off it is in range |
| LegacyProcesses.SanitizeCgroup | src/utils/processes.rs:116-147 | a cgroup text with no cgroup v2 ("0::") line names no application |
| LegacyProcesses.UnitName | src/utils/processes.rs:118-146 | a cgroup v2 line ending neither in ".scope" nor in ".service" names no application |
| LegacyProcesses.ScopeYieldsName | src/utils/processes.rs:118-126 | a scope line `…-<name>-<tail>` whose name and tail hold no '-' yields the unescaped name, the second-to-last '-'-segment |
| LegacyProcesses.ServiceYieldsName | src/utils/processes.rs:127-143 | a service line `…/<name>[@<instance>].service` yields the unescaped name, cut to its last '-'-part when it holds "dbus-:" |
| LegacyProcesses.DbusCutLastPart | src/utils/processes.rs:135-139 | a D-Bus activated name keeps exactly the part after its last '-' |
| LegacyProcesses.UnitIsLastSegment | src/utils/processes.rs:128-129 | the last '/'-segment of `head/<unit>` is the unit when the unit holds no '/' |
| LegacyProcesses.ServiceIsNotScope | src/utils/processes.rs:118-127 | a line ending in ".service" does not end in ".scope", so the service branch is the one taken |
| LegacyProcesses.InstanceCut | src/utils/processes.rs:130-132 | the part before the first '@' of `<name>@<instance>` is the name when the name holds no '@' |
| LegacyProcesses.SanitizeFirstLine | src/utils/processes.rs:117 | with no cgroup v2 line before it, the first "0::" line alone decides the application id |
| LegacyProcesses.FirstLine | src/utils/processes.rs:117 | the first cgroup v2 line of `before + "\n" + line` is `line` when `before` has none |
| LegacyProcesses.SanitizeAppId | src/utils/processes.rs:562-568 | an id ending in ".desktop" loses exactly that suffix; any other id is kept unchanged |
| LegacyProcesses.SanitizeAppIdStripsOne | src/utils/processes.rs:562-568 | only one suffix is removed: an id with ".desktop" appended comes back as the id |
| LegacyProcesses.AppId | src/utils/processes.rs:398-403 | an application has an id exactly when its desktop entry has one, and it is that id sanitized |
| LegacyProcesses.AppIcon | src/utils/processes.rs:388-396 | "org.gnome.Shell" gets the "shell" icon; any other application its own icon, or "generic-process" when it has none |
| LegacyProcesses.IconFollowsInfo | src/utils/processes.rs:388-396 | two applications with the same desktop entry have the same icon, whatever processes they hold |
| LegacyProcesses.RefreshProc | src/utils/processes.rs:89-114 | a process stays alive exactly when its procfs directory still reads; its pid, directory and cgroup never change, and a live one moves its CPU time and timestamp into the "before" fields |
| LegacyProcesses.Paths | src/utils/processes.rs:533-535 | the known directories are the processes' directories, one for one and in order |
| LegacyProcesses.AppMap | src/utils/processes.rs:519-532 | every application starts with no processes and a desktop entry from the list, and every desktop entry with an id has its sanitized id in the map |
| LegacyProcesses.SystemOf | src/utils/processes.rs:541-549 | the system processes are exactly the processes that do not join an application (no portal cgroup and a known id) |
| LegacyProcesses.JoinedOf | src/utils/processes.rs:541-549 | the processes drained out are exactly the ones that join an application |
| LegacyProcesses.Add | src/utils/processes.rs:362-365 | adding a process changes only its own application, which then holds it under its pid with the application's icon; an unknown cgroup changes nothing |
| LegacyProcesses.AddAll | src/utils/processes.rs:550-554 | adding processes keeps the set of applications and every application's desktop entry |
| LegacyProcesses.AddKeepsOthers | src/utils/processes.rs:362-365 | adding a process leaves every other pid of every application as it was |
| LegacyProcesses.PartitionStoresJoined | src/utils/processes.rs:541-554 | with distinct pids, every process that joins an application ends up stored in it under its pid, carrying the application's icon |
| LegacyProcesses.PartitionAddsOnlyJoined | src/utils/processes.rs:541-554 | every process an application holds after the partition that it did not hold before is one of the joining processes |
| LegacyApps.Average | src/utils/processes.rs:443-450 | the averaged timestamp of an application without processes is zero |
| LegacyApps.SumOfEqual | src/utils/processes.rs:435-441 | when every process has the same value, the application's sum is that value times the number of processes |
| LegacyApps.AverageOfEqual | src/utils/processes.rs:443-450 | when every process has the same timestamp, the application's averaged timestamp is that timestamp |
| LegacyApps.DeadPaths | src/utils/processes.rs:409-416 | the dead directories an application reports are those of its processes whose directories no longer read |
| LegacyApps.RefreshedAppKeepsLive | src/utils/processes.rs:409-419 | after the refresh an application keeps its desktop entry and holds exactly the pids whose directories still read, each refreshed and alive |
| LegacyApps.DeadStep | src/utils/processes.rs:411-415 | one more dead process adds its directory to the dead list, a live one nothing |
| LegacyApps.RefreshEach | src/utils/processes.rs:410-415 | the loop refreshes every process of the application and collects exactly the directories of the dead ones |
| LegacyApps.RefreshApp | src/utils/processes.rs:409-419 | `App::refresh` leaves the refreshed live processes and returns exactly the dead directories |
| LegacyApps.RefreshedApps | src/utils/processes.rs:683-686 | refreshing the applications neither adds nor removes one |
| LegacyApps.AppsDead | src/utils/processes.rs:683-686 | the dead application directories are exactly those some application reports |
| LegacyApps.RefreshAll | src/utils/processes.rs:688-692 | every system process is refreshed in place, in order |
| LegacyApps.DeadOf | src/utils/processes.rs:687-692 | the dead system directories are exactly those of the system processes whose directories no longer read |
| LegacyApps.Retain | src/utils/processes.rs:693-694 | `retain` keeps exactly the processes whose directories are not among the dead |
| LegacyApps.SystemRefreshKeepsLive | src/utils/processes.rs:687-694 | after the system refresh the system list holds exactly the refreshed processes whose directories still read, all alive |
| LegacyApps.TakeEntry | src/utils/processes.rs:708-717 | taking a new directory appends it to the known list, adds no application and only adds to the system processes |
| LegacyApps.Scan | src/utils/processes.rs:697-718 | walking the listing never adds or removes an application |
| LegacyApps.ScanBookkeeping | src/utils/processes.rs:697-718 | the known directories never repeat; a scan that did not fail knows every listed directory, and every new listed directory was readable |
| LegacyApps.ScanPlacesNew | src/utils/processes.rs:708-715 | a new process lands in the application its cgroup names, under its pid, or else in the system list |
| LegacyApps.ScanKeeps | src/utils/processes.rs:697-718 | the scan keeps every process already held and every known directory, and only listed directories become known |
| LegacyApps.Position | src/utils/processes.rs:723-726 | `position` gives the first index holding the directory, or the length when none does |
| LegacyApps.SwapRemove | src/utils/processes.rs:727 | `swap_remove` shortens the list by one |
| LegacyApps.ForgetRemoves | src/utils/processes.rs:720-730 | on a list without repeats, forgetting a directory removes it and nothing else, and keeps the list free of repeats |
| LegacyApps.ForgetAllRemoves | src/utils/processes.rs:720-730 | on a list without repeats, forgetting the dead directories removes exactly them |
| LegacyApps.ItemOf | src/utils/processes.rs:596-620 | an application's item is Flatpak exactly when every counted process (not "bwrap", non-empty command line) is a Flatpak one |
| LegacyApps.SystemMemory | src/utils/processes.rs:660-664 | the system item's memory is at least the memory of every system process |
| LegacyApps.RunningIds | src/utils/processes.rs:592-595 | the items listed are exactly the running applications |
| LegacyApps.Simple | src/utils/processes.rs:591-670 | `simple()` lists one item per running application, in the map's order, followed by the "System Processes" item last |
| LegacyApps.SimpleListsRunningOnce | src/utils/processes.rs:592-595 | no running application is listed twice |
| LegacyApps.BuildAppMap | src/utils/processes.rs:519-532 | the loop over the desktop entries builds exactly the application map |
| LegacyApps.Drain | src/utils/processes.rs:541-549 | `drain_filter` splits the processes into the system processes and the joining ones, each kept in order |
| LegacyApps.AddEach | src/utils/processes.rs:550-554 | the loop adds each joining process to its application |
| LegacyApps.Apps.constructor | src/utils/processes.rs:514-560 | `Apps::new` knows every process's directory, holds the joining processes in their applications and the others as system processes; from distinct process directories it starts with no directory known twice (`Valid`) |
| LegacyApps.Apps.RefreshApps | src/utils/processes.rs:683-686 | every application is refreshed, the dead directories of all of them are returned, nothing else changes, and no directory becomes known twice |
| LegacyApps.Apps.RefreshSystem | src/utils/processes.rs:687-694 | the system processes are refreshed in place, the dead ones' directories returned in order and those processes dropped; the known directories stay free of repeats |
| LegacyApps.Apps.ScanEntries | src/utils/processes.rs:697-718 | the loop over the procfs listing ends in the state and verdict of the scan, and keeps the known directories free of repeats |
| LegacyApps.Apps.ForgetDead | src/utils/processes.rs:720-730 | each dead directory is forgotten from the known list in turn, nothing else changes, and the list stays free of repeats |
| LegacyApps.Apps.Refresh | src/utils/processes.rs:679-732 | `Apps::refresh` refreshes applications and system processes, takes the new directories and, when none failed, forgets exactly the dead directories; the known directories never repeat, and after a successful refresh they are exactly the earlier and the listed ones, less the dead |
| LegacyApps.RetainLoop | src/utils/processes.rs:693-694 | the retain loop computes `retain` |
| LegacyApps.RefreshBookkeeping | src/utils/processes.rs:679-732 | after a successful refresh the known directories have no repeats and are exactly the earlier and the listed ones, less the dead |
| LegacyApps.IsRunning | src/utils/processes.rs:422-425 | an application is running when it holds a process; RunningIds lists exactly the running applications |
| LegacyApps.AppMemory | src/utils/processes.rs:427-433 | the sum of the processes' memory (SumOver); ItemOf reports it as the application's memory |
| LegacyApps.AppCpuTime | src/utils/processes.rs:435-441 | the sum of the processes' CPU time (SumOver), unbounded where the program adds `u64`s |
| LegacyApps.AppCpuTimeTimestamp | src/utils/processes.rs:443-450 | the floored average of the processes' timestamps (Average); AverageOfEqual states that equal timestamps average to themselves |
| Graph.LastN | src/ui/widgets/graph.rs:182-190 | the newest samples kept are never more than the bound nor more than there are |
| Graph.PushKeepsNewest | src/ui/widgets/graph.rs:182-190 | a push keeps exactly the newest 600 of the samples followed by the new one, so the queue never exceeds 600; a full queue loses its oldest sample |
| Graph.PushedAllKeepsNewest | src/ui/widgets/graph.rs:196-206 | pushing a batch leaves exactly the newest 600 of the old samples followed by the batch |
| Graph.WindowStart | src/ui/widgets/graph.rs:173 | the saturating subtraction puts the start of the shown window between 0 and 600 |
| Graph.MaxFrom | src/ui/widgets/graph.rs:174-179 | the maximum over a range is one of its samples and at least every one of them; an empty range gives 0 |
| Graph.ResGraph.constructor | src/ui/widgets/graph.rs:46-57 | a new graph holds 600 zero samples and a y axis locked at 1 |
| Graph.ResGraph.PushDataPoint | src/ui/widgets/graph.rs:182-190 | a push drops the oldest sample of a full queue and appends the new one; the queue stays within 600 and the y-axis lock is unchanged |
| Graph.ResGraph.PushDataPoints | src/ui/widgets/graph.rs:196-206 | pushing a batch pushes each sample in order; the queue stays within 600 |
| Graph.ResGraph.DataPoints | src/ui/widgets/graph.rs:192-194 | the samples come back oldest first |
| Graph.ResGraph.ClearDataPoints | src/ui/widgets/graph.rs:208-210 | clearing empties the queue and keeps the y-axis lock |
| Graph.ResGraph.SetLockedMaxY | src/ui/widgets/graph.rs:164-167 | the y-axis lock is replaced and the samples are kept |
| Graph.ResGraph.HighestValue | src/ui/widgets/graph.rs:170-180 | the highest value is the largest sample of the shown window, at least every sample in it, and 0 when no sample is shown; only for a full queue (see Left out) |
| SidebarItem.OrdIsLexicographic | src/ui/widgets/stack_sidebar_item.rs:260-272 | items compare by primary number, then secondary number: equal exactly when both are, larger exactly when the reverse comparison is smaller |
| SidebarItem.OrdTransitive | src/ui/widgets/stack_sidebar_item.rs:260-272 | the comparison is transitive |
| SidebarItem.SetTextRoundTrip | src/ui/widgets/stack_sidebar_item.rs:65-73 | after `set_name` the getter returns the value set and the label shows it |
| SidebarItem.SetTextAsWrittenLosesValue | src/ui/widgets/stack_sidebar_item.rs:81-88 | as written, setting the subtitle "50%" over "10%" leaves the getter returning "" while the label shows "50%" |
| SidebarItem.FractionInRange | src/ui/widgets/stack_sidebar_item.rs:118-129 | a usage between zero and the scale (the highest shown sample, at least 1) gives a progress fraction between 0 and 1 |
| SidebarItem.ResStackSidebarItem.constructor | src/ui/widgets/stack_sidebar_item.rs:133-151 | a new item has empty name, subtitle and detail and a full graph |
| SidebarItem.ResStackSidebarItem.SetName | src/ui/widgets/stack_sidebar_item.rs:65-73 | an unchanged name leaves the label alone; a new one is stored and shown; nothing else changes |
| SidebarItem.ResStackSidebarItem.SetSubtitle | src/ui/widgets/stack_sidebar_item.rs:81-88 | corrected setter (Findings, stack_sidebar_item.rs:81-88), not the code as written: the subtitle is set as the name is, stored and shown when new, left alone when unchanged |
| SidebarItem.ResStackSidebarItem.SetDetail | src/ui/widgets/stack_sidebar_item.rs:96-103 | corrected setter (Findings, stack_sidebar_item.rs:81-88), not the code as written: the detail is set as the name is, stored and shown when new, left alone when unchanged |
| SidebarItem.ResStackSidebarItem.SetUsage | src/ui/widgets/stack_sidebar_item.rs:118-129 | the usage is stored, the bar set to its fraction of the highest shown sample (at least 1) taken before the push, and the usage then pushed onto the full graph |
| SidebarItem.ResStackSidebarItem.Compare | src/ui/widgets/stack_sidebar_item.rs:260-272 | two items compare equal exactly when both their numbers are equal |
| SidebarItem.Ord | src/ui/widgets/stack_sidebar_item.rs:260-272 | `ord` is equal exactly when both numbers are equal, and larger exactly when the primary number is larger or the primaries tie and the secondary is larger |
| SidebarItem.SetText | src/ui/widgets/stack_sidebar_item.rs:65-73 | the setter of `set_name`: afterwards the stored value is the one set, and the label shows it unless it was unchanged |
| SidebarItem.SetTextAsWritten | src/ui/widgets/stack_sidebar_item.rs:81-88 | `set_subtitle`/`set_detail` as written: the stored value equals the one set only when it was unchanged or the new one is empty; the label shows the new value unless it was unchanged |
| SidebarItem.Fraction | src/ui/widgets/stack_sidebar_item.rs:118-129 | the progress fraction lies in 0..1 whenever the usage lies between 0 and the scale (the highest sample, at least 1) |
| Graph.Pushed | src/ui/widgets/graph.rs:182-190 | a push ends the queue with the new sample, keeps a queue of at most 600 within 600, and grows a queue that is not full by one; PushKeepsNewest states which samples remain |
| Graph.PushedAll | src/ui/widgets/graph.rs:196-206 | pushing a batch keeps the queue within 600 and ends it with the batch's last sample; PushedAllKeepsNewest states the whole result |
| ProcessesPage.Retained | src/ui/pages/processes/mod.rs:519-522 | `retain` never adds rows |
| ProcessesPage.PassEntries | src/ui/pages/processes/mod.rs:494-517 | the pass keeps every row in place and in order, and gives each row whose pid has a fresh item that item |
| ProcessesPage.PassSets | src/ui/pages/processes/mod.rs:494-517 | over rows with distinct pids, the pass consumes exactly the fresh items of the rows' pids and marks exactly the row pids that `get_process` no longer finds |
| ProcessesPage.RetainedKeeps | src/ui/pages/processes/mod.rs:519-522 | a row survives `retain` exactly when its pid is not marked |
| ProcessesPage.RetainedPids | src/ui/pages/processes/mod.rs:519-522 | the pids kept are exactly the pids of the rows less the marked ones |
| ProcessesPage.RetainedUnique | src/ui/pages/processes/mod.rs:519-522 | dropping rows keeps pids distinct |
| ProcessesPage.PassDialog | src/ui/pages/processes/mod.rs:498-514 | an open dialog whose pid has a row is closed when the pid is gone, otherwise updated with the fresh item when there is one |
| ProcessesPage.DialogRow | src/ui/pages/processes/mod.rs:498-514 | the dialog's own row closes it when the pid is gone and otherwise shows the fresh item |
| ProcessesPage.DialogBefore | src/ui/pages/processes/mod.rs:494-517 | rows before the dialog's row leave the dialog held and unchanged and do not consume its fresh item |
| ProcessesPage.OtherRowsKeepDialog | src/ui/pages/processes/mod.rs:494-517 | rows of other pids leave the dialog as it is |
| ProcessesPage.KeptRowsAreKnown | src/ui/pages/processes/mod.rs:494-522 | the rows kept have distinct pids and are exactly the old rows whose pids `get_process` still finds |
| ProcessesPage.CacheExtendsKeepsNames | src/ui/pages/processes/mod.rs:598-617 | caching more user names never changes a name the cache already gives |
| ProcessesPage.CachedNameOfAccount | src/ui/pages/processes/mod.rs:598-617 | an uncached uid with no account is shown as "root", one with an account by the account's name |
| ProcessesPage.AddRow | src/ui/pages/processes/mod.rs:524-532 | appending the row for one more fresh item records it under its pid with its user's name and adds its uid to the cached ones |
| ProcessesPage.TabUsageText | src/ui/pages/processes/mod.rs:538-541 | the tab reads "Running Processes: " followed by the number of rows in decimal |
| ProcessesPage.TabUsageCount | src/ui/pages/processes/mod.rs:538-541 | the number on the tab reads back as the number of rows |
| ProcessesPage.ResProcesses.constructor | src/ui/pages/processes/mod.rs:128-157 | a new page has no rows, no dialog, no popover, an empty user cache and an empty tab text |
| ProcessesPage.ResProcesses.GetUserNameByUid | src/ui/pages/processes/mod.rs:598-617 | the name is the cached one, else the looked-up one (or "root"), and it is cached; nothing else changes |
| ProcessesPage.ResProcesses.OpenInformationDialog | src/ui/pages/processes/mod.rs:460-466 | the open dialog shows the item with its user's name for the item's pid |
| ProcessesPage.ResProcesses.RefreshProcessesList | src/ui/pages/processes/mod.rs:485-542 | the rows become the pass's kept rows followed by one new row per unconsumed item; dialog and popover are those of the pass; the tab shows the new count |
| ProcessesPage.ResProcesses.UpdateRows | src/ui/pages/processes/mod.rs:494-517 | the loop over the rows computes the pass: updated rows, unconsumed items, marked pids, dialog and popover |
| ProcessesPage.ResProcesses.AppendRows | src/ui/pages/processes/mod.rs:524-532 | the drain adds exactly one row per unconsumed item, with its user's name, and caches exactly their uids |
| ProcessesPage.UniqueConcat | src/ui/pages/processes/mod.rs:519-532 | the kept rows and the added rows, having no pid in common, have distinct pids together |
| ProcessesPage.RefreshedRows | src/ui/pages/processes/mod.rs:485-542 | after a refresh the rows have distinct pids: one for each old pid still found and one for each new item, nothing else |
| ProcessesPage.SearchFindsText | src/ui/pages/processes/mod.rs:468-475 | a row whose name or command line contains the search text, in any case, is shown |
| ProcessesPage.SearchHides | src/ui/pages/processes/mod.rs:468-475 | with the search bar shown, a row is hidden when a character of the search text appears in neither its name nor its command line |
| ProcessesPage.SearchIgnoresCase | src/ui/pages/processes/mod.rs:468-475 | the filter does not depend on the case of the search text |
| ProcessesPage.ActionNeedsConfirmation | src/ui/pages/processes/mod.rs:544-596 | continuing a process is sent without a dialog; any other signal asks first and is sent only on "yes", with the item's pid and display name |
| ProcessesPage.KnownAsWritten | src/ui/pages/processes/mod.rs:498 | as written, a pid counts as still there when `AppsContext` has any process for it, dead or alive |
| ProcessesPage.KnownAlive | src/utils/app.rs:280-282 | the live pids are those whose process is alive |
| ProcessesPage.DeadStaysKnownAsWritten | src/utils/app.rs:428-433 | marking the missing processes dead leaves the set of pids `get_process` finds unchanged |
| ProcessesPage.DeadRowKeptAsWritten | src/ui/pages/processes/mod.rs:498 | as written, a row for a dead pid 7 survives the refresh; with the live pids it is removed |
| ProcessesPage.KeptRowsAreAlive | src/ui/pages/processes/mod.rs:494-522 | with the live pids, every row that stays belongs to a live process |
| ProcessesPage.SearchFilter | src/ui/pages/processes/mod.rs:468-475 | the row filter; SearchFindsText, SearchHides and SearchIgnoresCase state both directions and case-insensitivity |
| ProcessesPage.TabUsage | src/ui/pages/processes/mod.rs:538-541 | "Running Processes: <n>"; TabUsageText and TabUsageCount state it |
| ProcessesPage.CachedName | src/ui/pages/processes/mod.rs:598-617 | the cached name, else the account's, else "root"; CachedNameOfAccount and CacheExtendsKeepsNames state it |
| ProcessesPage.ExecuteProcessAction | src/ui/pages/processes/mod.rs:544-596 | the dialog and the action sent; ActionNeedsConfirmation states that only continuing skips the dialog and what is sent |
| ApplicationsPage.Retained | src/ui/pages/applications/mod.rs:559-569 | `retain` never adds rows |
| ApplicationsPage.PassEntries | src/ui/pages/applications/mod.rs:527-556 | over rows with distinct ids, the pass keeps every row in place and in order and gives each row whose id has a fresh item that item |
| ApplicationsPage.PassSets | src/ui/pages/applications/mod.rs:527-556 | the pass consumes exactly the fresh items of the rows' ids and marks exactly the rows of applications that no longer run, never the system row |
| ApplicationsPage.RetainedIds | src/ui/pages/applications/mod.rs:559-569 | the ids kept are exactly the rows' ids less the marked ones |
| ApplicationsPage.RetainedUnique | src/ui/pages/applications/mod.rs:559-569 | dropping rows keeps ids distinct |
| ApplicationsPage.PassDialog | src/ui/pages/applications/mod.rs:533-554 | an open dialog whose row is present is closed when its application has stopped, otherwise updated with the fresh item when there is one |
| ApplicationsPage.DialogRow | src/ui/pages/applications/mod.rs:533-554 | the dialog's own row closes it when the application has stopped and otherwise shows the fresh item |
| ApplicationsPage.DialogBefore | src/ui/pages/applications/mod.rs:527-556 | rows before the dialog's row leave the dialog held and unchanged and do not consume its fresh item |
| ApplicationsPage.OtherRowsKeepDialog | src/ui/pages/applications/mod.rs:527-556 | rows of other ids leave the dialog as it is |
| ApplicationsPage.KeptRowsRun | src/ui/pages/applications/mod.rs:527-569 | the rows kept have distinct ids: the system row and the rows of applications still running |
| ApplicationsPage.UniqueConcat | src/ui/pages/applications/mod.rs:559-575 | the kept rows and the added rows, having no id in common, have distinct ids together |
| ApplicationsPage.AddRow | src/ui/pages/applications/mod.rs:571-575 | appending the row for one more fresh item records it under its id |
| ApplicationsPage.RefreshedRows | src/ui/pages/applications/mod.rs:517-586 | after a refresh the rows have distinct ids: the old ones less the stopped applications', plus one per new item, and the system row whenever the items hold it |
| ApplicationsPage.CountedRows | src/ui/pages/applications/mod.rs:584 | the tab counts one row fewer than the store holds, as a 32-bit unsigned subtraction |
| ApplicationsPage.TabUsageText | src/ui/pages/applications/mod.rs:582-585 | the tab reads "Running Apps: " followed by the counted rows in decimal |
| ApplicationsPage.UniqueCount | src/ui/pages/applications/mod.rs:559-575 | rows with distinct ids are as many as their ids |
| ApplicationsPage.TabCountsApps | src/ui/pages/applications/mod.rs:582-585 | with the system row among rows of distinct ids, the tab shows exactly the number of application rows |
| ApplicationsPage.ResApplications.constructor | src/ui/pages/applications/mod.rs:136-160 | a new page has no rows, no dialog, no popover and an empty tab text |
| ApplicationsPage.ResApplications.RefreshAppsList | src/ui/pages/applications/mod.rs:517-586 | the rows become the pass's kept rows followed by one new row per unconsumed item; dialog and popover are those of the pass; the tab shows the new count |
| ApplicationsPage.ResApplications.UpdateRows | src/ui/pages/applications/mod.rs:527-556 | the loop over the rows, asking whether each application still runs, computes the pass |
| ApplicationsPage.ResApplications.AppendRows | src/ui/pages/applications/mod.rs:571-575 | the drain adds exactly one row per unconsumed item |
| ApplicationsPage.SelectionButtons | src/ui/pages/applications/mod.rs:400-409 | the end button is never sensitive without the information button |
| ApplicationsPage.ButtonsForRows | src/ui/pages/applications/mod.rs:400-409 | the system row can be inspected but not ended, an application row both, and nothing selected neither |
| ApplicationsPage.SearchFindsApp | src/ui/pages/applications/mod.rs:493-508 | an application whose name, id or description contains the search text, in any case, is shown |
| ApplicationsPage.SearchHidesSystemRow | src/ui/pages/applications/mod.rs:493-508 | with the search bar shown, the system row is hidden when a character of the search text is not in its name |
| ApplicationsPage.ActionNameOf | src/ui/pages/applications/mod.rs:1158-1165 | the heading is "End", "Halt", "Kill" or "Continue", then the application's name and "?" |
| ApplicationsPage.ActionTexts | src/ui/pages/applications/mod.rs:1167-1183 | only continuing comes without a warning, and each action has its own button label |
| ApplicationsPage.AppActionNeedsConfirmation | src/ui/pages/applications/mod.rs:588-631 | continuing is sent without a dialog; any other action asks first, with a warning, and is sent only on "yes", with the application's id |
| ApplicationsPage.EndButtonRowHasId | src/ui/pages/applications/mod.rs:409 | the end button is sensitive only on a row with an id, so sending the action can unwrap it |
| ApplicationsPage.SearchFilter | src/ui/pages/applications/mod.rs:493-508 | the row filter; SearchFindsApp and SearchHidesSystemRow state what it shows and hides |
| ApplicationsPage.TabUsage | src/ui/pages/applications/mod.rs:582-585 | "Running Apps: <n>"; TabUsageText and TabCountsApps state it |
| ApplicationsPage.ActionName | src/ui/pages/applications/mod.rs:1158-1165 | the dialog heading; ActionNameOf states it for each action |
| ApplicationsPage.ActionWarning | src/ui/pages/applications/mod.rs:1167-1174 | the dialog body; ActionTexts states that only continuing has none |
| ApplicationsPage.ActionDescription | src/ui/pages/applications/mod.rs:1176-1183 | the button label; ActionTexts states that each action has its own |
| ApplicationsPage.ExecuteAppAction | src/ui/pages/applications/mod.rs:588-631 | the dialog and the action sent; AppActionNeedsConfirmation states that only continuing skips the dialog and what is sent |
| Network.FromInterfaceName | src/utils/network.rs:58-82 | no name is classified as a bridge, and a name carrying none of the kernel prefixes is `Unknown` |
| Network.TypeIffPrefix | src/utils/network.rs:58-82 | each interface type is chosen exactly when the name starts with one of its prefixes, so the order of the tests does not matter |
| Network.VirtualNames | src/utils/network.rs:273-281 | an interface named by its kernel prefix is virtual exactly when the name starts with "veth", "virbr" or "wg" |
| Network.TypeToStringInjective | src/utils/network.rs:100-120 | no two interface types share a display string |
| Network.Entry | src/utils/network.rs:150-156 | a `uevent` line is kept as a pair only when it is the key, '=', and the value |
| Network.EntryRoundTrip | src/utils/network.rs:150-156 | a line written as key '=' value, neither holding '=', reads back as that pair |
| Network.UeventKeys | src/utils/network.rs:147-159 | a key is in the `uevent` map exactly when some two-piece line carries it |
| Network.UeventLastWins | src/utils/network.rs:147-159 | a key's value is the one on the last two-piece line carrying it |
| Network.ReadUevent | src/utils/network.rs:147-159 | the loop over the lines builds the `uevent` map of the file's lines |
| Network.KeptNames | src/utils/network.rs:138-142 | of readable entries, the path of every entry whose name does not start with "lo" is kept, and only those |
| Network.GetSysfsPaths | src/utils/network.rs:133-145 | the `while let` loop returns the scan's outcome: the first unreadable entry's error (`entry?`), or the paths of the entries not starting with "lo", in order |
| Network.ReadableListing | src/utils/network.rs:133-145 | when every entry reads, the listing succeeds and is exactly the kept paths, in directory order |
| Network.SameInterfaceIsEquivalence | src/utils/network.rs:123-130 | interface equality is an equivalence that ignores driver, type, speed and label |
| Network.DisplayName | src/utils/network.rs:219-224 | the display name is the device label, else the PCI product name, else the interface name |
| Network.VidPid | src/utils/network.rs:175-185 | a `PCI_ID` entry is parsed only when it has exactly two ':'-pieces, each then a 16-bit hex number or an error carrying Rust's message (empty piece, invalid digit or overflow); otherwise the ids are (0, 0) |
| Network.VidPidRoundTrip | src/utils/network.rs:175-185 | a `PCI_ID` written as two hex ids joined by ':' yields those ids |
| Network.SpeedAsWritten | src/utils/network.rs:187-189 | as written, the speed is missing exactly when the file cannot be read |
| Network.SpeedAsWrittenIsZero | src/utils/network.rs:187-189 | as written, the kernel's newline-terminated speed attribute always parses to 0 |
| Network.Speed | src/utils/network.rs:187-189 | with the newline removed, the speed is still missing exactly when the file cannot be read |
| Network.SpeedReadsAttribute | src/utils/network.rs:187-189 | with the newline removed, the kernel's speed attribute gives the link speed |
| Network.RemoveNewlineFromDigits | src/utils/network.rs:192-199 | removing the newline from a digit string followed by a newline leaves the digits |
| Network.FromSysfs | src/utils/network.rs:169-216 | reading an interface fails exactly when its `PCI_ID` is malformed; otherwise its type comes from its name, its vendor and product names from the parsed ids, its driver from the `DRIVER` entry, its name is the interface name, and the label and address are present exactly when readable, with every newline removed; the speed is read with the corrected trimming (Findings, network.rs:187-189), not as written |
| Network.TypeToString | src/utils/network.rs:100-120 | the untranslated label of each interface type; TypeToStringInjective states that no two share one |
| Network.IsVirtual | src/utils/network.rs:273-281 | bridges, VM bridges, veth pairs and WireGuard tunnels are virtual; VirtualNames states it on interface names |
| Network.UeventOf | src/utils/network.rs:147-159 | the map of the uevent lines; UeventKeys and UeventLastWins state which keys it holds and which value wins |
| Network.SameInterface | src/utils/network.rs:123-130 | equality on name, vendor, product name and hardware address; SameInterfaceIsEquivalence states that it is an equivalence |
| Text.UnsignedParseError | src/utils/network.rs:180-181 | the message of a failed `u16::from_str_radix`: "cannot parse integer from empty string" exactly for empty text; an invalid-digit message only when the parse fails |
| Text.ScanError | src/utils/network.rs:180-181 | the first failure scanning the digits from the left is none, an invalid digit or an overflow; an invalid digit is reported only when some character is not a digit |
| DirListing.KeptErrorSticks | src/utils/drive.rs:78-80 | once an entry could not be read, later entries do not change the error |
| DirListing.FirstErrorEndsScan | src/utils/drive.rs:78-80 | the first unreadable entry ends the scan with its own error, whatever follows it |
| DirListing.KeptMembers | src/utils/drive.rs:76-97 | a scan without unreadable entries succeeds and lists a path exactly when an entry with that path passes the filter |
| DirListing.ListKept | src/utils/drive.rs:76-97 | the `while let` loop over the entries returns the scan's outcome: the first error, or the kept paths in order |
| Drive.SysfsPaths | src/utils/drive.rs:75-98 | `get_sysfs_paths` lists, in directory order, the block devices the name filter lets through |
| Drive.SysfsPathsFilter | src/utils/drive.rs:80-91 | a device is listed exactly when its name is not empty and, when virtual devices are skipped, does not start with loop, ram, zram, md, dm or zd |
| Drive.ListedExamples | src/utils/drive.rs:80-91 | "sda" is always listed, "loop0" only while virtual devices are shown, and an empty name never |
| Drive.ByteFile | src/utils/drive.rs:158-180 | a flag file gives a value exactly when it can be read, and a parsed value fits in a byte |
| Drive.Removable | src/utils/drive.rs:158-166 | `removable` succeeds exactly when the file reads and parses, and is true exactly when the value is not 0 |
| Drive.Writable | src/utils/drive.rs:173-180 | `writable` succeeds exactly when the "ro" file reads and parses, and is true exactly when the value is 0 |
| Drive.ByteFileOf | src/utils/drive.rs:158-180 | a flag file holding a byte value and a line break parses as that value |
| Drive.FlagsOfValues | src/utils/drive.rs:158-180 | with the flags as the kernel writes them, the drive is removable unless the value is 0 and writable only when "ro" is 0 |
| Drive.U64File | src/utils/drive.rs:188-232 | a size file gives a value below 2^64 exactly when it reads and parses with its line breaks removed |
| Drive.U64FileOf | src/utils/drive.rs:188-232 | a size file written out from a number reads back as that number |
| Drive.TextFile | src/utils/drive.rs:202-218 | the model and wwid are the file's raw contents, an error exactly when it cannot be read |
| Drive.NamedTypeReadsNothing | src/utils/drive.rs:126-134 | a name starting nvme, mmc, fd or sr decides the type before any file is read, and that type is never an error |
| Drive.DriveTypeOfFlags | src/utils/drive.rs:135-149 | for any other name: rotational means a hard disk, else removable means flash, else a solid-state drive |
| Drive.DriveTypeWithoutFiles | src/utils/drive.rs:135-152 | without a rotational file the type is unknown; a non-rotational drive without a removable file is an error |
| Drive.FromSysfs | src/utils/drive.rs:49-67 | the block device is the path's last component, the model is the trimmed file contents when readable, and a type that cannot be decided is `Unknown` |
| Drive.SameDriveByName | src/utils/drive.rs:36-40 | drives read from directories of the same name are equal, whatever their files; drives of different names are not |
| Drive.IconDistinct | src/utils/drive.rs:235-250 | every drive type has its own icon, and only an unknown type shows the default one |
| Drive.IsVirtual | src/utils/drive.rs:83-88 | the name prefixes of virtual block devices; SysfsPathsFilter and ListedExamples state which names the listing skips |
| Drive.DriveTypeOf | src/utils/drive.rs:126-152 | `drive_type`; NamedTypeReadsNothing, DriveTypeOfFlags and DriveTypeWithoutFiles state its three cases |
| Drive.Icon | src/utils/drive.rs:235-250 | the icon of each drive type; IconDistinct states which types share one |
| Battery.StateIgnoresCase | src/utils/battery.rs:52-66 | parsing a state ignores the case of the text |
| Battery.StateRoundTrip | src/utils/battery.rs:52-82 | every state's displayed name parses back to that state |
| Battery.TechnologyFromAliases | src/utils/battery.rs:98-121 | a text names a chemistry exactly when its lower-cased form is one of that chemistry's sysfs names, and is `Unknown` exactly when it is none of them |
| Battery.TechnologyDisplayDistinct | src/utils/battery.rs:123-141 | different chemistries display differently, and an unknown one as "N/A" |
| Battery.Line | src/utils/battery.rs:174-186 | a text file gives a value exactly when it can be read, and that value has no line break |
| Battery.ParsedFile | src/utils/battery.rs:190-192 | a number file gives a value exactly when it can be read, and a parsed value is within the integer width |
| Battery.FromSysfs | src/utils/battery.rs:172-204 | reading a battery fails exactly when energy_full_design cannot be read; the design capacity is known exactly when it parses, and the manufacturer exactly when its file reads |
| Battery.LineOf | src/utils/battery.rs:174-186 | a file holding a line-free text and a line break reads as that text |
| Battery.ParsedFileOf | src/utils/battery.rs:190-192 | a file holding a number's decimal text and a line break parses as that number |
| Battery.AliasParses | src/utils/battery.rs:98-121 | every sysfs name of a chemistry is free of line breaks and parses as that chemistry |
| Battery.SharedAliasParses | src/utils/battery.rs:98-121 | the chemistries known by several names (lead-acid, lithium-ion, lithium-polymer) parse from each of them |
| Battery.FromSysfsOfValues | src/utils/battery.rs:172-204 | a battery directory written out from its values reads back as those values, the capacity converted from microwatt-hours to watt-hours |
| Battery.DisplayNameOf | src/utils/battery.rs:206-213 | the name is the converted design capacity followed by " Battery", or "Battery" alone when the capacity is unknown |
| Battery.Charge | src/utils/battery.rs:215-221 | the charge succeeds exactly when the capacity file reads and parses as a byte, and is that percentage over 100 |
| Battery.Health | src/utils/battery.rs:223-236 | the health succeeds exactly when both energy files read and parse |
| Battery.PowerUsage | src/utils/battery.rs:238-244 | the power succeeds exactly when power_now reads and parses, and is that many microwatts in watts |
| Battery.StateOf | src/utils/battery.rs:246-251 | the state is an error exactly when the status file cannot be read; any readable text is a state |
| Battery.ChargeCycles | src/utils/battery.rs:253-259 | the cycle count succeeds exactly when cycle_count reads and parses |
| Battery.ReadingsOfValues | src/utils/battery.rs:215-251 | files holding a percentage, the two energies and a status read back as charge percent/100, health full/design and that state |
| Battery.StateOfValue | src/utils/battery.rs:246-251 | a status file holding a state's displayed name reads as that state |
| Battery.DataOf | src/utils/battery.rs:22-40 | the battery data fails only when the battery itself does; its readings are the battery's readings, each failing on its own |
| Battery.SysfsPaths | src/utils/battery.rs:154-170 | `get_sysfs_paths` lists, in directory order, the power supplies whose type is battery |
| Battery.SysfsPathsKeepBatteries | src/utils/battery.rs:159-167 | a supply is listed exactly when its type file (empty when unreadable), lower-cased and trimmed, reads "battery" |
| Battery.BatteryTypeOfKernel | src/utils/battery.rs:159-167 | the kernel's "Battery" with a line break is a battery |
| Battery.NotBatteryTypes | src/utils/battery.rs:159-167 | "Mains" and an unreadable type file are not batteries |
| Battery.TrimLineWord | src/utils/battery.rs:159-163 | a word followed by a line break trims to the word |
| Battery.StateFromStr | src/utils/battery.rs:52-66 | `State::from_str`; StateIgnoresCase and StateRoundTrip state that case does not matter and the kernel's names round-trip |
| Battery.StateDisplay | src/utils/battery.rs:68-82 | the label of each state; StateRoundTrip pairs it with the kernel names |
| Battery.TechnologyFromStr | src/utils/battery.rs:98-121 | `Technology::from_str`; TechnologyFromAliases, AliasParses and SharedAliasParses state which names map to which technology |
| Battery.TechnologyDisplay | src/utils/battery.rs:123-141 | the label of each technology; TechnologyDisplayDistinct states that no two share one |
| Battery.DisplayName | src/utils/battery.rs:206-213 | "<energy> Battery" or "Battery"; DisplayNameOf states both cases |
| Battery.IsBatteryType | src/utils/battery.rs:159-167 | a power supply whose trimmed, lower-cased type is "battery"; BatteryTypeOfKernel and NotBatteryTypes state it on the kernel's texts |
| Cpu.CpuLines | src/utils/cpu.rs:129-130 | the lines `retain` keeps are no more than the input and all start with "cpu" |
| Cpu.CpuLinesKeepsExactly | src/utils/cpu.rs:130 | a line is kept if and only if it is among the input lines and starts with "cpu" |
| Cpu.CpuLinesOfAppend | src/utils/cpu.rs:130 | `retain` keeps the order: the kept lines of two blocks are those of the first followed by those of the second |
| Cpu.RetainCpuLines | src/utils/cpu.rs:129-130 | in place on the array of lines, the kept lines are moved to the front and the new length is returned; the prefix equals the lines `retain` keeps from the old array |
| Cpu.SelectedLine | src/utils/cpu.rs:124-126 | line 0 for all cores, `core + 1` for one core |
| Cpu.ProcStatLine | src/utils/cpu.rs:123-136 | corrected `get_proc_stat`: `Ok` exactly when the selected index is below the number of "cpu" lines, and then it is that line, which starts with "cpu" |
| Cpu.ProcStatLineAgrees | src/utils/cpu.rs:132-135 | the code as written and the corrected one agree except at index equal to the count, which is exactly where the code as written panics |
| Cpu.ProcStatLineAsWrittenPanics | src/utils/cpu.rs:132-135 | for "cpu 1" and core 0 the guard lets index 1 through and the indexing panics; the corrected function returns `Err` |
| Cpu.ProcStatLineSelects | src/utils/cpu.rs:123-136 | for a file made of lines joined by line breaks, the result is the selected "cpu" line or the "greater than amount of cores" error |
| Cpu.FindCpu | src/utils/cpu.rs:98 | the regex's match starts at the first occurrence of "cpu", and there is none exactly when the line does not contain "cpu" |
| Cpu.FindCpuAtStart | src/utils/cpu.rs:98 | a line starting with "cpu" matches at position 0 |
| Cpu.SpaceRun | src/utils/cpu.rs:98 | the ` *` run fits in the remaining text |
| Cpu.DigitRun | src/utils/cpu.rs:98 | the `[0-9]*` run fits in the remaining text |
| Cpu.Groups | src/utils/cpu.rs:98 | the ten named groups give exactly ten captures |
| Cpu.Captures | src/utils/cpu.rs:98-102 | a match yields ten captures, and there is none (the "regex failed" error) exactly when the line has no "cpu" |
| Cpu.ParseAll | src/utils/cpu.rs:111-119 | all captures parse as `u64` and give their values in order, or some capture does not parse |
| Cpu.ParseProcStatLine | src/utils/cpu.rs:96-121 | `parse_proc_stat_line`: the regex error exactly when there is no match, otherwise the times of the captures |
| Cpu.TimesOf | src/utils/cpu.rs:103-120 | a value exactly when all ten captures parse, both times below 2^64; a panic exactly when idle and iowait parse but another capture does not; never the regex error |
| Cpu.DigitsOf | src/utils/cpu.rs:98 | the decimal digits of each field, one capture per field |
| Cpu.TimesOfNumbers | src/utils/cpu.rs:103-120 | the digits of ten numbers give (idle − iowait, their sum), wrapping at 2^64 |
| Cpu.TimesOfParsed | src/utils/cpu.rs:103-120 | ten captures that all parse give (idle − iowait, sum) of the parsed values |
| Cpu.ParseFormattedLine | src/utils/cpu.rs:96-121 | a /proc/stat line written from ten numbers reads back as (idle − iowait, their sum): the round trip of the line format |
| Cpu.TimesOfNoIdle | src/utils/cpu.rs:103-106 | captures from at most three numbers leave idle empty: the "unable to get idle time" error |
| Cpu.TimesWithoutIdle | src/utils/cpu.rs:103-106 | an empty idle capture is the "unable to get idle time" error |
| Cpu.TimesOfPartial | src/utils/cpu.rs:111-119 | captures from five to nine numbers parse idle and iowait but panic in the sum's `unwrap` |
| Cpu.TimesPanic | src/utils/cpu.rs:114-117 | idle and iowait parse but the last capture is empty: the sum panics |
| Cpu.ParseShortLine | src/utils/cpu.rs:96-121 | a line that stops before the idle time is an error; one that has idle and iowait but fewer than ten numbers panics |
| Cpu.CpuFreq | src/utils/cpu.rs:84-94 | a read error stays an error; a value exactly when the file with its line breaks removed parses as `u64`, and it is below 2^64 |
| Cpu.CpuFreqOfFile | src/utils/cpu.rs:90-93 | a file holding a kHz count and a line break reads as that count × 1000 Hz |
| Cpu.Lookup | src/utils/cpu.rs:45-67 | a key of `lscpu`'s output gives a value exactly when it is present |
| Cpu.ParseCount | src/utils/cpu.rs:56 | a parsed count comes from a present value and is below the `usize` bound |
| Cpu.CpuInfoOf | src/utils/cpu.rs:43-82 | sockets and logical CPUs are the parsed counts, vendor and model the looked-up strings; physical cores exist exactly when cores per socket parse, and are cores per socket × sockets (1 when missing) |
| Cpu.PhysicalCpusOfSockets | src/utils/cpu.rs:60-64 | 8 cores and no socket count give 8 physical cores; 4 cores and 2 sockets give 8 |
| Cpu.ProcStatLineAsWritten | src/utils/cpu.rs:123-136 | `get_proc_stat` as written: the guard rejects only an index above the count of "cpu" lines; ProcStatLineAsWrittenPanics and ProcStatLineAgrees compare it with the corrected ProcStatLine |
| Units.Prefixes | src/utils/units.rs:6-17 | each base has nine prefixes: "" to "Y" for decimal, "" to "Yi" for binary |
| Units.Factor | src/utils/units.rs:14-17 | the base (1000 or 1024) is greater than 1, so each division scales down |
| Units.Level | src/utils/units.rs:18-23 | the number of divisions the loop makes lies between the starting position and 9 |
| Units.DivideAgain | src/utils/units.rs:22 | dividing the scaled amount by the base once more is dividing the amount by the next power of the base |
| Units.ToLargestUnit | src/utils/units.rs:12-25 | `to_largest_unit`: the result is the amount over the base to the power of the level, with the prefix at that position, or the last prefix when the loop falls through after nine divisions |
| Units.LevelIsLeast | src/utils/units.rs:18-23 | below the last prefix the scaled amount is below the base, and at every earlier position it was at least the base: the position is the least one that fits |
| Units.ScaleBack | src/utils/units.rs:22 | the scaled amount times the base to the power of the level is the original amount |
| Units.SmallAmountUnscaled | src/utils/units.rs:18-21 | an amount below the base is not divided and gets the empty prefix |
| Units.ScaledAtLeastOne | src/utils/units.rs:18-23 | a non-negative amount that gets a prefix is scaled to at least 1 |
| I18n.JoinSplitStr | src/i18n.rs:25 | splitting on "{}" and joining with it again gives back the text |
| I18n.SplitJoinStr | src/i18n.rs:25 | pieces free of the pattern's first character, joined with the pattern and split again, come back unchanged |
| I18n.Freplace | src/i18n.rs:24-31 | `freplace`: the loop builds the first piece followed by each argument and the piece after it, zipped until either runs out |
| I18n.FreplaceNoPlaceholder | src/i18n.rs:25-26 | text without "{}" comes back unchanged, whatever the arguments |
| I18n.FillWithPlaceholders | src/i18n.rs:27-29 | filling every placeholder with "{}" when there are arguments enough rebuilds the joined format |
| I18n.FreplaceRoundTrip | src/i18n.rs:24-31 | with as many "{}" arguments as placeholders, `freplace` is the identity |
| I18n.FreplaceFillsInOrder | src/i18n.rs:27-29 | for a format made of brace-free pieces, the i-th placeholder becomes the i-th argument, each followed by its piece |
| I18n.FreplaceSingle | src/i18n.rs:24-31 | a format with one placeholder becomes the text around it with the argument in its place |
| I18n.FillIgnoresExtra | src/i18n.rs:27 | arguments past the last placeholder are ignored |
| I18n.FillStopsEarly | src/i18n.rs:27-30 | with fewer arguments than placeholders the output ends after the piece following the last argument; the remaining placeholders and their text are dropped |
| I18n.I18nF | src/i18n.rs:55-58 | `i18n_f` is `freplace` on the translated format; a translation without "{}" is returned as it is |
| I18n.Ni18nF | src/i18n.rs:74-77 | `ni18n_f` is `freplace` on the singular or plural translation chosen by the count; one without "{}" is returned as it is |
| I18n.KeyPattern | src/i18n.rs:36 | for a key free of regex metacharacters, the text the escaped pattern matches is exactly the key in braces |
| I18n.Kreplace | src/i18n.rs:34-45 | `kreplace` for keys free of regex metacharacters: the loop replaces each pair's "{key}" by its value, pair by pair in order (see Left out) |
| I18n.ReplaceEveryKey | src/i18n.rs:36-40 | for a key free of regex metacharacters, every "{key}" in text made of brace-free pieces is replaced by the value |
| I18n.ReplaceBySelf | src/i18n.rs:36-40 | for a key free of regex metacharacters, replacing its placeholder by itself changes nothing |
| I18n.Fill | src/i18n.rs:27-30 | the zipped loop; FillIgnoresExtra and FillStopsEarly state where it stops |
| I18n.Freplaced | src/i18n.rs:24-31 | `freplace`; FreplaceFillsInOrder, FreplaceRoundTrip and FreplaceNoPlaceholder state its results |
| I18n.Kreplaced | src/i18n.rs:34-45 | `kreplace` for keys free of regex metacharacters (see Left out); ReplaceEveryKey and ReplaceBySelf state its results |
## Left out

- File, sysfs and procfs reads, directory listings and command output (`lscpu`, `pkexec`, `flatpak-spawn`): their contents are parameters of the model.
- The clock: timestamps are parameters.
- The translation catalogue (`gettext`/`ngettext`): a function parameter of `I18n.I18nF` and `I18n.Ni18nF` only. Every other translated text is modelled as its untranslated English msgid: the battery state, technology and display name texts, the interface type labels, the "root" user name, the tab texts, the application action texts and the "System Processes" item.
- `unescape`, the rmp/ron payload encoding and `.desktop` file loading: opaque functions or opaque bytes.
- Floating point: usage fractions and ratios are exact numerator/denominator pairs. Unit amounts, graph samples and battery capacities are reals. `f64` rounding, `finite_or_default` and `total_cmp` are not modelled.
- ToLargestUnit (Units.ToLargestUnit): computes over reals, so the result is exact where the program's `f64` division rounds.
- PushDataPoint (Graph.ResGraph.PushDataPoint): samples are reals. The `y_max` that `plot_graph` derives for drawing is not modelled.
- GTK and libadwaita presentation: labels are plain fields. Sorters, column factories, dialogs, `snapshot` and `plot_graph` are not modelled.
- Whitespace trimming and lower-casing cover ASCII only, where Rust uses the Unicode tables.
- Hash-map iteration order is an explicit `order` parameter wherever the result depends on it.
- The regex-based `sanitize_cgroup` of lib/process_data/src/lib.rs: it needs a regex engine. `parse_drm_fields` and the `/proc/stat` regex are modelled by small matchers that accept the same lines.
- The `XeStats` built in lib/process_data/src/lib.rs: the model uses the five fields of gpu_usage.rs, with the video cycles read from `drm-cycles-vcs`.
- NVML and `update_nvidia_stats`: a foreign library.
- The companion process behind its `LazyLock<Mutex>`, the `nix` signal and scheduling calls, and the fdinfo collection's file reads: I/O and concurrency.
- `Process::try_from_path` failures are modelled as a directory that is no longer in procfs.
- The helpers' `main` functions are modelled as `Run` functions from the arguments and the OS outcome to the exit code.
- KillArguments (Process.KillArguments): passes the pid first and the action second, while src/bin/resources-kill.rs reads the action first. The two files come from different revisions, so no contract between them is stated.
- Gathered (AppGroups.Gathered): follows the corrected roll-over of the Findings table (src/utils/app.rs:400-404). As written, a pid that a refresh marked dead stays dead when a later gather reports it again; RolledAsWritten models that.
- GatherAll (AppGroups.GatherAll): folds the corrected Gathered, so it is the corrected roll-over, not the code as written.
- Refreshed (AppGroups.Refreshed): builds on the corrected GatherAll, so it is the corrected roll-over, not the code as written.
- Take (AppGroups.AppsContext.Take): sets `alive` on a known pid it sees again, which the code as written does not do (Findings, src/utils/app.rs:400-404).
- TakeAll (AppGroups.AppsContext.TakeAll): iterates the corrected Take, so it is the corrected roll-over, not the code as written.
- Refresh (AppGroups.AppsContext.Refresh): promises the corrected Refreshed, not the code as written.
- SetSubtitle (SidebarItem.ResStackSidebarItem.SetSubtitle): uses the corrected setter of the Findings table (src/ui/widgets/stack_sidebar_item.rs:81-88). As written, the stored subtitle is left empty after a change; SetTextAsWritten models that.
- SetDetail (SidebarItem.ResStackSidebarItem.SetDetail): uses the corrected setter, like SetSubtitle. As written, the stored detail is left empty after a change.
- FromSysfs (Network.FromSysfs): reads the speed with the corrected Speed of the Findings table (src/utils/network.rs:187-189). As written, the newline-terminated attribute parses to 0; SpeedAsWritten models that.
- Kreplace (I18n.Kreplace), Kreplaced (I18n.Kreplaced), KeyPattern (I18n.KeyPattern): cover only keys without regex metacharacters, where the compiled pattern `\{key\}` matches exactly "{key}". For other keys the regex matches other text: with key "a+" it matches "{aa}" but not "{a+}", and with key "a.b" it matches "{aXb}". A key such as "(" does not compile, and that pair is skipped. The regex engine is not modelled.
- ReplaceEveryKey (I18n.ReplaceEveryKey): holds only for keys without regex metacharacters; with key "a+" the source leaves "{a+}" in place.
- ReplaceBySelf (I18n.ReplaceBySelf): holds only for keys without regex metacharacters; with key "a.b" the source rewrites "{aXb}" to "{a.b}".
- HighestValue (Graph.ResGraph.HighestValue): requires a queue of exactly 600 samples. On a shorter queue, for example after `clear_data_points`, `VecDeque::range(start..600)` in src/ui/widgets/graph.rs:175-178 panics. That panic is not modelled.
- `u64` overflow of the sums over processes in the aggregates: the sums are unbounded.
- ParseProcStatLine (Cpu.ParseProcStatLine): `idle - iowait` and the sum wrap at 2^64, as in a release build. A debug build panics on underflow instead.
- CpuFreq (Cpu.CpuFreq): the multiplication by 1000 wraps at 2^64, as in a release build.
- The bitrate text in the USB and Wi-Fi `Display` (`convert_*`) is a formatter parameter.
- From src/utils/app.rs: `cpu_time_before`, `cpu_time_before_timestamp`, `cpu_time_ratio`, `execute_process_action`, `process_items` and `process_item`. These are float ratios, spawning, or GTK item construction.
- From src/utils/processes.rs: `term`/`kill`/`stop`/`cont` and the `pkexec` path (spawning); `try_from_path` and `Process::all` (procfs reads); the older `sanitize_cmdline` at lines 304-306; `get_app`, `system_processes` and `all_processes` (plain accessors); the CPU ratios of `cpu_time_ratio` and `simple()` (floats).
- From src/utils/network.rs: `icon` (a GTK icon), `received_bytes`/`sent_bytes` (counter reads), `NetworkData::new` (I/O).
- From src/utils/drive.rs: `sys_stats` (a counter read).
- From src/utils/cpu.rs: `max_speed` (an `f32`).

## Findings

| source | as written | input that shows it | evidently intended | confidence | as-written member | corrected member |
|---|---|---|---|---|---|---|
| src/utils/cpu.rs:132-135 | `get_proc_stat` rejects an index only when it is greater than the number of "cpu" lines, then indexes the list | /proc/stat holding the single line "cpu 1", with core 0: index 1 passes the guard and the indexing panics | an index equal to the count is rejected with the "greater than amount of cores" error | high; not executed | Cpu.ProcStatLineAsWritten, Cpu.ProcStatLineAsWrittenPanics | Cpu.ProcStatLine, Cpu.ProcStatLineAgrees |
| src/utils/app.rs:400-404 | a refresh rolls a known pid's baseline and replaces its sample but never sets `alive` back to true | a pid marked dead by one refresh that the next gather reports again | a process seen in the gather is alive | medium; not executed | AppGroups.RolledAsWritten, AppGroups.SeenAgainStaysDeadAsWritten | AppGroups.Rolled, AppGroups.RefreshedSeenAlive |
| src/utils/network.rs:187-189 | `speed` parses the sysfs attribute without removing its line break | the attribute "1000\n": the parse fails and the speed falls back to 0 | the link speed in Mb/s, 1000 here | high; not executed | Network.SpeedAsWritten, Network.SpeedAsWrittenIsZero | Network.Speed, Network.SpeedReadsAttribute |
| src/ui/pages/processes/mod.rs:498 | a row is removed only when `get_process` finds no process for its pid, and the context keeps dead processes | a row for pid 7 whose process the last refresh marked dead: the row stays | rows of dead processes are removed | high; not executed | ProcessesPage.KnownAsWritten, ProcessesPage.DeadRowKeptAsWritten | ProcessesPage.KnownAlive, ProcessesPage.KeptRowsAreAlive |
| src/ui/widgets/stack_sidebar_item.rs:81-88 | `set_subtitle` and `set_detail` take the old value out of the cell and never store the new one | `set_subtitle("50%")` over "10%": the label shows "50%" but the getter returns "" | the getter returns the value last set, as `set_name` does | high; not executed | SidebarItem.SetTextAsWritten, SidebarItem.SetTextAsWrittenLosesValue | SidebarItem.SetText, SidebarItem.SetTextRoundTrip |
