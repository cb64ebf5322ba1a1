# koya-bar, modelled in Dafny

This project models the deterministic logic of the koya-bar desktop bar
(a Hyprland bar written in JavaScript for the Koya UI runtime) and proves
what that logic promises. Eight parts are modelled:

- **NetworkManager helpers** (`lib/NetworkManager.js`):
  - prefix-to-netmask conversion, with JavaScript's 32-bit shift written out;
  - the hand-written UTF-16 to UTF-8 encoder;
  - SSID byte masking, trimming and decoding;
  - the device-type, device-state and connectivity tables, and the hw/sw split;
  - the per-device summary `getOverview` builds (status, address and route texts, the device-to-connection map);
  - the IP detail records and gateway extraction;
  - access-point listing and security classification;
  - device search, profile choice for `deviceConnect`, the active-connection map;
  - the modem index.
- **Battery widget** (`bar/module/battery.js`): presence decision, rounded and clamped percentage, ten-step icon bucket, charging overlay, display-device fallback and signal path filter.
- **Power-profile widget** (`bar/module/power.js`): the available/unavailable machine, exclusive highlighting of the active profile, the `Set` call and the signal filter.
- **Network widget** (`bar/module/network.js`): tracking of Ethernet and Wi-Fi devices, the per-entry `update` (detach, then re-attach when shown), and the routing of activity events.
- **Workspace indicator** (`hypr/workspaces.js`):
  - cells with focus and urgency;
  - display windows with visibility and a pending auto-hide;
  - the registry's switch, remove, create and build operations and the urgent and focused-monitor handlers.
- **Calendar** (`bar/module/datetime.js`):
  - the month grid `buildCalendar` lays out, with its cell colours and week labels;
  - the once-per-day rebuild in `checkCalendar`, including its two field names `calendarId` and `calandarId`;
  - `show`/`hide` and the bar element's mouse guards.
- **Top bar text** (`top-bar.js`): the HH:MM clock, the human date with its English ordinal suffix, and the active window title.
- **Wallpaper** (`bar/wallpaper.js`):
  - extension extraction and video detection;
  - asset keys;
  - the `'*'` fan-out over displays;
  - each display's cross-fade state.

Every foreign call is an input:

- **D-Bus replies** are `Option<Value>`. None means the call threw. `Value` (module `JsValue`) is a small JSON-like datatype with JavaScript truthiness and property lookup.
- **`JSON.parse`, `TextDecoder`, `parseInt` and `parseFloat`** are function parameters.
- **Dates and the compositor's display list** are passed in as values.
- **The UI** is represented by the effects the properties need: enabled, attached, text, colour and started animations.

Parts that mutate state in the source are classes. Each class method is
proved to take the object to a pure transition function of its old state,
and the properties are lemmas about those functions. Loops in the source
are loops here, each proved against a specification function:
`toUtf8Bytes`, the NUL trim, the `activeMap` and `deviceToActive` loops,
`_findDevicePath`, the access-point listing, the calendar's week loop,
the workspace build and the `'*'` fan-out.

## Model

| member | source | states |
|---|---|---|
| Netmask.ShiftedMask | lib/NetworkManager.js:60 | `0xffffffff << (32 - p)` read as unsigned always lies in 0 .. 2^32 - 1 |
| Netmask.OctetAt | lib/NetworkManager.js:61-66 | `(mask >>> s) & 0xff` is always below 256 |
| Netmask.ToNetmaskFromPrefix | lib/NetworkManager.js:56-68 | a netmask text is produced exactly when the prefix is a number from 0 to 32; otherwise undefined |
| Netmask.NetmaskHasLeadingOnes | lib/NetworkManager.js:56-68 | for 1 <= p <= 32 the text is the dotted quad of the mask with exactly p leading one bits |
| Netmask.OctetsOfShiftedMask | lib/NetworkManager.js:60-66 | each of the four octets the source extracts is the corresponding octet of p leading ones |
| Netmask.OctetOfShiftedMask | lib/NetworkManager.js:60-66 | octet k of the shifted mask is octet k of p leading ones |
| Netmask.OctetOfPrefixMask | lib/NetworkManager.js:60-66 | octet k of 2^32 - 2^(32-p) is 255, 0 or the partial octet, by where the prefix ends |
| Netmask.OctetInsidePrefix | lib/NetworkManager.js:61-66 | an octet wholly inside the prefix is 255 |
| Netmask.OctetOutsidePrefix | lib/NetworkManager.js:61-66 | an octet wholly after the prefix is 0 |
| Netmask.OctetWherePrefixEnds | lib/NetworkManager.js:61-66 | the octet where the prefix ends has its leading ones set and the rest clear |
| Netmask.ShiftedMaskValue | lib/NetworkManager.js:60 | for 1 <= p <= 32 the shifted mask equals 2^32 - 2^(32-p) |
| Netmask.NetmaskZeroIsAllOnes | lib/NetworkManager.js:59-60 | prefix 0 gives "255.255.255.255", the same text as prefix 32, because the shift count is taken modulo 32 |
| Utf8.ToUtf8Bytes | lib/NetworkManager.js:560 | the loop's output equals the encoding function on the whole input |
| Utf8.CodePointBytes | lib/NetworkManager.js:560 | a code point takes 1, 2, 3 or 4 bytes by range (below 0x80, 0x800, 0x10000, above) |
| Utf8.PairCodePoint | lib/NetworkManager.js:560 | a surrogate and the unit after it combine to a supplementary code point, 0x10000 .. 0x10FFFF |
| Utf8.LowBitsAt | lib/NetworkManager.js:560 | the low ten bits of a unit; a missing unit (read past the end) contributes 0 |
| Utf8.DecodeFirstOfCodePoint | lib/NetworkManager.js:560 | the bytes written for a scalar value decode back to it, whatever follows |
| Utf8.DecodeCons | lib/NetworkManager.js:560 | decoding an encoded code point followed by other bytes gives that code point followed by their decoding |
| Utf8.EncodeFromIsUtf8 | lib/NetworkManager.js:560 | on well-formed UTF-16 the output, from any position, decodes back to the input's code points (round trip) |
| Utf8.EncodeIsUtf8 | lib/NetworkManager.js:560 | the whole output of well-formed UTF-16 is valid UTF-8 of its code points |
| Utf8.AsciiUnchanged | lib/NetworkManager.js:560 | ASCII text maps to itself byte for byte |
| Utf8.SurrogateSwallowsNext | lib/NetworkManager.js:560 | any unit from 0xD800 to 0xDFFF writes four bytes and consumes the unit after it |
| Utf8.LoneLowSurrogateExample | lib/NetworkManager.js:560 | a lone low surrogate swallows the 'A' that follows it |
| Utf8.TrailingHighSurrogateExample | lib/NetworkManager.js:560 | a trailing high surrogate reads the missing next unit as 0 |
| Ssid.MaskByte | lib/NetworkManager.js:74 | `n & 0xff` agrees with n modulo 256 and keeps bytes as they are; non-numbers become 0 |
| Ssid.MaskBytes | lib/NetworkManager.js:74 | an array is masked element by element, keeping its length |
| Ssid.TrimNuls | lib/NetworkManager.js:78-79 | the trimmed bytes are a prefix, everything cut is zero, and the result does not end in zero |
| Ssid.TrimEnd | lib/NetworkManager.js:78 | the `while` loop stops at the end of the trimmed prefix |
| Ssid.TrimIgnoresPadding | lib/NetworkManager.js:78-79 | appending zero bytes does not change the trimmed bytes |
| Ssid.TrimIdempotent | lib/NetworkManager.js:78-79 | trimming twice trims once |
| Ssid.HexByte | lib/NetworkManager.js:82 | each byte is two hex digits that read back as the byte |
| Ssid.HexDigits | lib/NetworkManager.js:82 | the hex text has two digits per byte |
| Ssid.HexDigitsRoundTrip | lib/NetworkManager.js:82 | every byte can be read back from its two digits |
| Ssid.DecodeSsidBytes | lib/NetworkManager.js:70-88 | strings come back unchanged; an array is masked to bytes, then trimmed and decoded; a byte buffer is trimmed and decoded; anything else is undefined |
| Ssid.DecodeTrimmed | lib/NetworkManager.js:80-82 | the UTF-8 text when that decoder succeeds, else the Latin-1 text, else "0x" and two hex digits per byte |
| Ssid.ArrayDecodesAsMaskedBuffer | lib/NetworkManager.js:74-75 | an array decodes exactly as the byte buffer of its masked elements |
| Ssid.PaddingDoesNotChangeSsid | lib/NetworkManager.js:78-81 | trailing NUL padding never changes the decoded SSID |
| Ssid.HexFallbackHoldsBytes | lib/NetworkManager.js:80-82 | when both decoders fail, the result is "0x" followed by two hex digits per trimmed byte, which read back as the bytes |
| NmTables.DevTypeName | lib/NetworkManager.js:353-357 | a name is given exactly for a number in the table |
| NmTables.StateName | lib/NetworkManager.js:359-363 | a name is given exactly for a number in the table |
| NmTables.ConnectivityName | lib/NetworkManager.js:780-794 | the connectivity text is never empty |
| NmTables.HwOrSw | lib/NetworkManager.js:404 | the mode is "hw" or "sw" |
| NmTables.TypeNameOfWifiAndEthernet | lib/NetworkManager.js:355 | the type text is "wifi" exactly for 2 and "ethernet" exactly for 1 |
| NmTables.DevTypeNamesAreDistinct | lib/NetworkManager.js:355 | "wifi", "ethernet" and "unknown" each come from one code only; the software names come from exactly 10, 11, 13, 14, 15, 16, 21, 23, 25 |
| NmTables.SoftwareDeviceCodes | lib/NetworkManager.js:399-404 | a device is "sw" exactly when its type code is one of the nine software codes |
| NmTables.StateNamesTheWidgetUses | lib/NetworkManager.js:361 | "connected", "disconnected" and "unavailable" come exactly from 100, 30 and 20 |
| NmTables.ConnectivityNamesAreDistinct | lib/NetworkManager.js:780 | the five connectivity codes have five different names |
| NmTables.ConnectivityOutOfRange | lib/NetworkManager.js:789-794 | any other value, NaN included, reads as "unknown" |
| Overview.AddressText | lib/NetworkManager.js:411 | an address entry is emitted iff its address (either spelling) is a string and its prefix (either spelling) is defined, and it then reads "addr/prefix" |
| Overview.Compact | lib/NetworkManager.js:411-412 | `filter(Boolean)` keeps every produced non-empty text and nothing else; a single text is kept iff it is defined and non-empty |
| Overview.CompactAppend | lib/NetworkManager.js:411-412 | filtering distributes over concatenation, so the kept texts stay in input order |
| Overview.MetricSuffix | lib/NetworkManager.js:415 | the suffix is empty exactly when the metric is undefined, and otherwise starts with " metric " |
| Overview.RouteText | lib/NetworkManager.js:414-416 | a route is dropped iff it is neither a default route with a truthy gateway nor a string destination with a defined prefix; a default route prints as "default via …", any other as "dest/…"; a printed route is never empty |
| Overview.PlainRouteReadsBack | lib/NetworkManager.js:415 | a non-default route's destination (without '/') comes back as the text before the first '/' |
| Overview.InetList | lib/NetworkManager.js:410-412 | no address list unless `addressData` is an array; every produced address text is listed, every listed text is the text of some entry, and each holds a '/' |
| Overview.RouteList | lib/NetworkManager.js:414-416 | no route list unless `routes` is an array; every printed route is listed, and every listed text is the print of some route |
| Overview.DeviceStatus | lib/NetworkManager.js:428 | without a connection id the status is the state name; with one in state 100 it is "connected"; with one in any other state it is the state name |
| Overview.Summarize | lib/NetworkManager.js:396-441 | the type is the table name (or "unknown") and the mode its hw/sw class; the status is the device status; the product is the Product string, else a non-empty Interface, else none; interface, driver, mac and mtu are read from the device; the connection id and default flag come from the active connection, and so do the four address and route lists |
| Overview.BuildDeviceToActive | lib/NetworkManager.js:383-392 | the loop builds exactly the specification map |
| Overview.AddDevicesMaps | lib/NetworkManager.js:387-391 | one connection maps every truthy device path it lists to itself and leaves other paths alone |
| Overview.DeviceToActiveStep | lib/NetworkManager.js:384-391 | one more connection takes over the devices it lists and leaves the others |
| Overview.LastListing | lib/NetworkManager.js:384-391 | the index of the last connection listing a device, -1 when none does |
| Overview.DeviceToActiveIsLastListing | lib/NetworkManager.js:383-407 | a device is mapped iff some connection lists it, and then to the last such connection |
| Overview.Field | lib/NetworkManager.js:1006-1018 | the record has exactly the eleven named fields; any other name, `devPath` included, is undefined |
| Overview.DropSpaces | lib/NetworkManager.js:1014 | the blanks stripped form a prefix; what remains does not start with a blank |
| Overview.FirstDefaultRoute | lib/NetworkManager.js:1002-1003 | `.find` returns the first route starting with "default via ", every earlier route failing the test; none iff no route starts that way |
| Overview.FirstDefaultIndex | lib/NetworkManager.js:1002-1003 | the position of the first route starting with "default via ", or the list's length |
| Overview.ReplaceDefaultVia | lib/NetworkManager.js:1014 | the result is a suffix of the route text, and the text is unchanged unless it starts with "default via" |
| Overview.GatewayOf | lib/NetworkManager.js:1014 | the gateway holds no space and starts the text left after removing "default via" |
| Overview.FirstAddress | lib/NetworkManager.js:1012 | no address iff the list is empty or its first entry is empty; otherwise a '/'-free prefix of the first entry |
| Overview.DetailOf | lib/NetworkManager.js:1002-1017 | device, type, state, connection and mac are copied; `netV4`/`netV6` are the first entries, `ipV4`/`ipV6` their addresses before '/', and a gateway is present iff some route is a default route and is then the first word after "default via " of the first such route |
| Overview.AllDeviceInfoIPDetail | lib/NetworkManager.js:1021-1043 | one record per summary, in order |
| Overview.FirstWithIface | lib/NetworkManager.js:1000 | the index of the first summary whose interface is the name |
| Overview.DeviceInfoIPDetail | lib/NetworkManager.js:996-1019 | undefined exactly when no interface has the name; otherwise the record of the first that has it |
| Overview.AddressBeforeSlash | lib/NetworkManager.js:1012 | `ipV4` gives back the address the first inet entry was printed with |
| Overview.DropSpacesOfUnspaced | lib/NetworkManager.js:1014 | text that does not start with a blank keeps all its characters |
| Overview.GatewayOfDefaultText | lib/NetworkManager.js:1014 | a gateway g without spaces is recovered from "default via g..." |
| Overview.FirstWordOf | lib/NetworkManager.js:1014 | `split(' ')[0]` of a word followed by a space-led suffix is the word |
| Overview.StripDefaultVia | lib/NetworkManager.js:1014 | the regular expression removes exactly "default via " before text that does not start with a blank |
| Overview.GatewayRoundTrip | lib/NetworkManager.js:1014 | a default route formatted from gateway g gives g back through the gateway extraction (round trip) |
| Overview.DefaultRouteTextStartsWithDefaultVia | lib/NetworkManager.js:415 | a default route is always printed with the "default via " prefix the detail lookup searches for |
| AccessPoints.Classify | lib/NetworkManager.js:498-504 | 'wpa2/3' iff RsnFlags > 0; else 'wpa' iff WpaFlags > 0; else 'wep' iff Privacy is truthy; else 'open'; non-numeric flags count as 0 |
| AccessPoints.SsidBytes | lib/NetworkManager.js:492 | the byte list is defined exactly for a buffer or an array |
| AccessPoints.BytesValue | lib/NetworkManager.js:492 | the bytes as a JavaScript array of the same length |
| AccessPoints.SsidSourceCases | lib/NetworkManager.js:493 | the decoder is given `_v` when truthy, else the SSID when truthy, else undefined |
| AccessPoints.ApRecordOf | lib/NetworkManager.js:491-505 | the record's security is the classification and its SSID is the decoding of the source above |
| AccessPoints.DeviceAps | lib/NetworkManager.js:489-506 | one record per access-point path of the device, in order, with the device and AP paths |
| AccessPoints.DeviceAccessPoints | lib/NetworkManager.js:489-506 | the inner loop pushes exactly those records |
| AccessPoints.DeviceApsStep | lib/NetworkManager.js:489-506 | one more access point appends its record |
| AccessPoints.ListVisibleAccessPoints | lib/NetworkManager.js:466-511 | a failed root call gives []; otherwise the loop gives the records of every Wi-Fi device's access points |
| AccessPoints.OnlyWifiDevicesListed | lib/NetworkManager.js:485 | every listed access point belongs to a listed device of type 2 |
| AccessPoints.NonWifiDevicesGiveNothing | lib/NetworkManager.js:485 | without Wi-Fi devices the list is empty |
| Devices.FindDevicePath | lib/NetworkManager.js:513-540 | the scan returns the search's result; undefined when the root call fails |
| Devices.FindByName | lib/NetworkManager.js:534 | with a name, the result is the first device whose interface equals it exactly, or undefined |
| Devices.FindByType | lib/NetworkManager.js:535 | without a name, the result is the first truthy path whose device has a numeric type matching `typeNum` (any numeric type when it is not a number) |
| Devices.FindByTypeFalsyBest | lib/NetworkManager.js:535 | a falsy `best` is replaced by the first qualifying path |
| Devices.KeepBest | lib/NetworkManager.js:535 | once found, `best` is never replaced |
| Devices.FindFrom | lib/NetworkManager.js:527-535 | the result is the best so far or one of the remaining paths; with a name, a new result matches the name; without one, a new result matches the type |
| Devices.Candidates | lib/NetworkManager.js:946 | the candidates are exactly the inactive profiles whose interface-name is absent or equal to the device's; a single profile is kept iff it qualifies |
| Devices.CandidatesAppend | lib/NetworkManager.js:946 | the filter distributes over concatenation, so candidates keep the order of the profile list |
| Devices.IsCandidate | lib/NetworkManager.js:946 | a candidate is inactive and bound to no interface or to this one; an inactive profile bound to this interface qualifies |
| Devices.Priority | lib/NetworkManager.js:947 | a numeric `autoconnect-priority` is the priority, anything else counts as 0 |
| Devices.FirstOfHighest | lib/NetworkManager.js:947-949 | the chosen index has the highest priority, and every earlier one a lower priority (stable sort) |
| Devices.FirstOfHighestCons | lib/NetworkManager.js:947-949 | the head after the sort, given the head of the tail: the first element wins ties |
| Devices.ChosenIsHead | lib/NetworkManager.js:946-949 | a candidate at the head of the list that no later candidate outranks is the profile the stable sort puts first |
| Devices.ChosenIsInTail | lib/NetworkManager.js:946-949 | otherwise the profile put first is the tail's, and it strictly outranks a candidate head, so a tie keeps the earlier profile |
| Devices.ChosenIndex | lib/NetworkManager.js:946-949 | the chosen profile sits in the profile list after only lower-priority candidates |
| Devices.DeviceConnect | lib/NetworkManager.js:939-950 | throws iff the device is not found; returns false iff no profile qualifies; otherwise activates a candidate of the highest priority that, in the profile list, follows only candidates of lower priority |
| Devices.ActivePair | lib/NetworkManager.js:302-304 | a pair is produced iff the reply is there and its `Connection` is a non-empty string; it pairs that path with the active path |
| Devices.PathsForNonEmpty | lib/NetworkManager.js:308-314 | a profile has active paths iff some pair names it |
| Devices.BuildActiveMap | lib/NetworkManager.js:308-314 | the loop maps exactly the named profiles, each to its active paths in order, never to an empty list |
| Devices.ActivePaths | lib/NetworkManager.js:104-108 | no paths unless the root bag has an `ActiveConnections` array; then exactly its non-empty strings |
| Devices.NonEmptyStringsAppend | lib/NetworkManager.js:108 | the filter distributes over concatenation, so active paths keep their order |
| Devices.NonEmptyStrings | lib/NetworkManager.js:108 | the filter keeps exactly the non-empty string items; a single item is kept iff it is one |
| Devices.ModemEntries | lib/NetworkManager.js:1229-1232 | exactly the objects that implement the modem interface are kept; a single object is kept iff it does |
| Devices.ModemEntriesAppend | lib/NetworkManager.js:1229-1232 | the filter distributes over concatenation, so modems keep the key order |
| Devices.ModemIndex | lib/NetworkManager.js:1233 | a positive index is kept; negative, zero and unparsable ones give 0 |
| Devices.GetModem | lib/NetworkManager.js:1233-1243 | a modem is returned iff the clamped index names one with a non-empty path; its modem and SIM parts are the object's interface values when truthy, else `{}` |
| Devices.ModemIndexClamps | lib/NetworkManager.js:1233 | negative and unparsable indices select the first modem |
| Battery.Glyph | bar/module/battery.js:68-80 | each icon is a single supplementary-plane character |
| Battery.DisplayDevicePath | bar/module/battery.js:100-105 | a non-empty string reply is the path; anything else, errors included, gives the DisplayDevice default |
| Battery.PropsOf | bar/module/battery.js:83-88 | objects are used as they are; unparsable strings and other values become `{}` |
| Battery.Round | bar/module/battery.js:142 | `Math.round` is within half a unit |
| Battery.Percent | bar/module/battery.js:139-142 | the percentage lies in 0..100 and is the rounded reading; non-finite readings give 0 |
| Battery.Bucket | bar/module/battery.js:144 | the bucket is a multiple of ten from 10 to 100 containing the percentage (10 below 10, 100 only at 100) |
| Battery.StatusText | bar/module/battery.js:149-152 | the overlay is shown iff the parsed state is 1 or 5 |
| Battery.Refreshed | bar/module/battery.js:111-158 | a throwing call changes nothing; otherwise presence is decided and the element enabled accordingly; without a battery no text changes; with one, the text is the rounded and clamped Percentage, the icon that percentage's level icon and the overlay that of the parsed State |
| Battery.HasBattery | bar/module/battery.js:126-129 | a battery needs one of the IsPresent spellings; with one, a defined Percentage or PowerSupply true suffices |
| Battery.LevelIcon | bar/module/battery.js:144-146 | the icon is the glyph of the percentage's bucket, b/10 places after the full-battery glyph |
| Battery.SignalTriggers | bar/module/battery.js:169 | a qualifying signal has a non-empty string path; the device's own path always qualifies |
| Battery.BatteryWidget.constructor | bar/module/battery.js:7-64 | the widget starts with "76%", the glyph U+F0083, which is none of the ten level icons (the full-battery icon is U+F0079), and the charge overlay |
| Battery.BatteryWidget.Refresh | bar/module/battery.js:111-158 | the view becomes the refresh function of the old view; path and subscription stay |
| Battery.BatteryWidget.Init | bar/module/battery.js:108-177 | the path is the reply's or the default; the subscription is installed only if a battery was found |
| Battery.BatteryWidget.OnSignal | bar/module/battery.js:165-176 | a subscribed widget refreshes on a qualifying signal and changes nothing otherwise |
| Battery.LevelIconOfBucket | bar/module/battery.js:144-146 | the level key is always in the icon set, so the `battery100` fallback never applies |
| Battery.IconOfBucket | bar/module/battery.js:144-146 | bucket b shows the glyph b/10 places after the full-battery one (100 shows the full one) |
| Battery.TensKey | bar/module/battery.js:145 | the key of bucket 10t is "battery", t, "0" |
| Battery.LevelIconsDistinguishBuckets | bar/module/battery.js:144-146 | percentages in different buckets show different icons |
| Battery.PercentTextReadsBack | bar/module/battery.js:143 | the text is the percentage's digits followed by '%' |
| Battery.PresenceNeedsIsPresent | bar/module/battery.js:126-129 | no battery without an IsPresent of true, 1 or 'true'; non-object replies report none |
| Battery.DefinedKindHidesType | bar/module/battery.js:126 | once Kind is defined, Type has no say |
| Battery.NullKindExample | bar/module/battery.js:126-129 | a null Kind hides a battery Type; without Kind the Type counts |
| Battery.RefreshShows | bar/module/battery.js:138-152 | a found battery shows the reply's rounded percentage, which lies in 0..100, with its bucket's glyph, and the overlay iff charging |
| Battery.SignalPaths | bar/module/battery.js:169 | the device's own path and every UPower device path trigger a refresh; the daemon's root path does not |
| Battery.NonStringPathIgnored | bar/module/battery.js:167-174 | a signal without a string path never triggers a refresh |
| Power.PropsOf | bar/module/power.js:83 | a non-string reply is never nullish after `raw \|\| {}`; an unparsable string becomes `{}` |
| Power.OutcomeOf | bar/module/power.js:83-105 | a throwing call is unavailable; so is only a string parsing to null; otherwise available, with the active profile exactly the ActiveProfile string (none when it is not a string) |
| Power.Highlight | bar/module/power.js:90-98 | each of the three profiles gets a colour |
| Power.SetProfileCall | bar/module/power.js:114-123 | a `Set` of `ActiveProfile` on the daemon's properties interface, signature "ssv", whose variant holds the profile |
| Power.RefreshSignal | bar/module/power.js:145-148 | a qualifying signal is a PropertiesChanged of the properties interface; one on the daemon's path always qualifies |
| Power.Refreshed | bar/module/power.js:86-105 | availability and enabled follow the outcome; an unavailable outcome keeps the colours; an available one colours the icons by the active profile |
| Power.RefreshHighlightsActiveProfile | bar/module/power.js:83-98 | after a successful refresh an icon has the configured colour iff the reply's ActiveProfile is its profile, and all are disabled-coloured when ActiveProfile is not a string |
| Power.HighlightOfEachProfile | bar/module/power.js:91-98 | the loop's per-profile colours make up the highlight table |
| Power.PowerWidget.constructor | bar/module/power.js:7-59 | the widget starts with every icon in the disabled colour |
| Power.PowerWidget.Refresh | bar/module/power.js:70-106 | the view becomes the refresh function of the outcome |
| Power.PowerWidget.ActivateProfile | bar/module/power.js:108-130 | one `Set` call with variant {_t:'s', _v:profile} iff the service is available; no field changes |
| Power.PowerWidget.Init | bar/module/power.js:132-157 | one refresh; the handler is installed only if the service was found |
| Power.PowerWidget.OnSignal | bar/module/power.js:143-153 | a subscribed widget refreshes on a qualifying signal and changes nothing otherwise |
| Power.HighlightIsExclusive | bar/module/power.js:96 | an icon has the active colour iff its profile is active; at most one does, and none when ActiveProfile names no profile |
| Power.UnparsableReplyIsAvailable | bar/module/power.js:83-84 | an unparsable string reply is available, with no icon active |
| Power.NullPropsAreUnavailable | bar/module/power.js:83-84 | a string parsing to null makes the widget unavailable; a null reply reads as `{}` |
| Power.RecoveryForgetsFailure | bar/module/power.js:86-105 | an unavailable refresh followed by an available one leaves what the available one alone leaves |
| Power.SignalFilter | bar/module/power.js:146-148 | a refresh happens iff member, interface and path are the service's PropertiesChanged |
| NetworkWidget.ConnectionIcon | bar/module/network.js:50-53 | a glyph exists exactly for "ethernet" and "wifi" |
| NetworkWidget.StateColour | bar/module/network.js:55-59 | a colour exists exactly for connected, disconnected and unavailable |
| NetworkWidget.Tracked | bar/module/network.js:65 | the filter never lengthens the list |
| NetworkWidget.InitialEntry | bar/module/network.js:69-90 | an entry starts with its record, unattached, with no cross icon, labelled '?' in the normal colour |
| NetworkWidget.Updated | bar/module/network.js:100-120 | no record: nothing changes; otherwise the cross is looked up once, the record is reloaded, and only a shown entry is re-attached with its glyph, colour and cross |
| NetworkWidget.Connection.constructor | bar/module/network.js:70-99 | a new entry is detached, labelled '?', with the cross sentinel -1 |
| NetworkWidget.Connection.Update | bar/module/network.js:100-120 | the entry becomes the update function of its old state |
| NetworkWidget.FindEntry | bar/module/network.js:40 | the scan updates the first entry whose record loosely matches the path, fails at a record-less entry reached before any match, and ignores the event iff every entry has a record that does not match |
| NetworkWidget.RouteOf | bar/module/network.js:36-44 | a nullish event throws; an event of another interface is ignored; an update names an entry that has a record |
| NetworkWidget.StatusesOf | bar/module/network.js:40 | the statuses are read entry by entry |
| NetworkWidget.Network.constructor | bar/module/network.js:8-26 | the widget starts with no entries |
| NetworkWidget.Network.Init | bar/module/network.js:28-131 | one fresh entry per tracked record, in order, with `showUnavailable` from the config; none when the lookup throws |
| NetworkWidget.Network.AddEntries | bar/module/network.js:28-131 | the loop creates one fresh initial entry per record, in order |
| NetworkWidget.Network.Route | bar/module/network.js:38-44 | the loop's decision is the routing function's |
| NetworkWidget.Network.OnActivity | bar/module/network.js:36-48 | only the routed entry updates; the entry list is unchanged |
| NetworkWidget.TrackedAreEthernetAndWifi | bar/module/network.js:65 | exactly the Ethernet and Wi-Fi records are tracked |
| NetworkWidget.TrackedKeepsOrder | bar/module/network.js:65 | the filter keeps the order of the records |
| NetworkWidget.DefinedPathMatchesNothing | bar/module/network.js:40 | an event with a defined path matches no entry; a nullish one matches the first entry with a record |
| NetworkWidget.DeviceSignalsUpdateNothing | bar/module/network.js:38-43 | a device signal carrying a path updates nothing |
| NetworkWidget.MissingRecordSticks | bar/module/network.js:105-119 | after a lookup that finds no device the entry stays detached and later updates change nothing |
| NetworkWidget.CrossLookedUpOnce | bar/module/network.js:104 | the cross handle is looked up only while it holds the sentinel |
| NetworkWidget.UnavailableDevices | bar/module/network.js:109-111 | an unavailable device is detached when it is not to be shown, and otherwise shown with the cross enabled |
| Workspaces.Focused | hypr/workspaces.js:113-125 | nothing before the UI exists; then the top line is lit iff focused or urgent, and focusing clears urgency |
| Workspaces.WithUI | hypr/workspaces.js:19-111 | building the UI keeps urgency and lights the top line only when urgent |
| Workspaces.Destroyed | hypr/workspaces.js:127-131 | the box is destroyed iff it was built |
| Workspaces.Urgent | hypr/workspaces.js:138-144 | the cell becomes urgent with its top line lit |
| Workspaces.WorkspaceCell.constructor | hypr/workspaces.js:11-17 | a new cell is not urgent and has no UI |
| Workspaces.WorkspaceCell.CreateUI | hypr/workspaces.js:19-111 | the cell state becomes the build function of the old |
| Workspaces.WorkspaceCell.Focus | hypr/workspaces.js:113-125 | the cell state becomes the focus function of the old |
| Workspaces.WorkspaceCell.Destroy | hypr/workspaces.js:127-131 | the cell state becomes the destroy function of the old |
| Workspaces.WorkspaceCell.SetUrgent | hypr/workspaces.js:138-144 | the cell state becomes the urgent function of the old |
| Workspaces.Shown | hypr/workspaces.js:204-216 | visible afterwards; slides in only if it was hidden; a hide is pending iff not locked |
| Workspaces.Hidden | hypr/workspaces.js:218-223 | hidden afterwards; slides out only if it was visible; no hide pending |
| Workspaces.DisplayWindow.constructor | hypr/workspaces.js:149-154 | a new window is visible with no timer |
| Workspaces.DisplayWindow.CreateUI | hypr/workspaces.js:156-197 | only the UI flag changes |
| Workspaces.DisplayWindow.Show | hypr/workspaces.js:204-216 | the window state becomes the show function of the old |
| Workspaces.DisplayWindow.Hide | hypr/workspaces.js:218-223 | the window state becomes the hide function of the old |
| Workspaces.DisplayWindow.HideTimerFires | hypr/workspaces.js:212-214 | the timer hides the window only if its hide is still pending |
| Workspaces.FindByName | hypr/workspaces.js:307 | the workspace found has the name; none is found iff no workspace has it |
| Workspaces.FindClient | hypr/workspaces.js:264 | the first client whose address contains the given one; none iff no client's does |
| Workspaces.UrgentKey | hypr/workspaces.js:262-273 | the key is the matched client's workspace id, returned iff a client matches and that id has a cell whose monitor has a window |
| Workspaces.HyprWorkspaces.constructor | hypr/workspaces.js:228-231 | both tables start empty |
| Workspaces.HyprWorkspaces.UnfocusAll | hypr/workspaces.js:283 | every cell is unfocused and the windows stay |
| Workspaces.HyprWorkspaces.ShowAll | hypr/workspaces.js:292 | every window is shown with auto-hide armed and the cells stay |
| Workspaces.HyprWorkspaces.SwitchTo | hypr/workspaces.js:281-293 | the tables become the switch functions of the old ones |
| Workspaces.HyprWorkspaces.RemoveWorkspace | hypr/workspaces.js:295-302 | only the named key is removed; the windows stay |
| Workspaces.HyprWorkspaces.CreateWorkspace | hypr/workspaces.js:304-315 | a cell is added only for an absent name with a window for its monitor; then the switch happens |
| Workspaces.HyprWorkspaces.BuildWorkspaces | hypr/workspaces.js:317-337 | the tables become the build functions of the workspace list |
| Workspaces.HyprWorkspaces.OnUrgent | hypr/workspaces.js:262-273 | the urgent cell's window is shown locked and the cell marked urgent; nothing happens without a cell or window |
| Workspaces.HyprWorkspaces.OnFocusedMon | hypr/workspaces.js:247-253 | the handler switches to the payload's second field |
| Workspaces.BuiltStep | hypr/workspaces.js:321-336 | one more workspace is one more step of the build |
| Workspaces.SwitchLightsTargetAndUrgent | hypr/workspaces.js:281-293 | after a switch exactly the named cell and urgent cells are lit, with no key added or removed |
| Workspaces.BuiltCellsTable | hypr/workspaces.js:330-335 | every id key of the list holds a new cell for its last workspace; other keys keep their cells |
| Workspaces.BuiltWindowsTable | hypr/workspaces.js:323-328 | every monitor has one window; existing windows are kept, new ones are built and shown |
| Workspaces.BuiltKeyIgnoresStart | hypr/workspaces.js:330-335 | what a build files under a listed key does not depend on the table before |
| Workspaces.BuildIsIdempotent | hypr/workspaces.js:317-337 | building twice from the same list gives what building once gives |
| Workspaces.CreateFocusesName | hypr/workspaces.js:309-314 | an existing cell is kept, an absent one is created, and the named cell ends focused |
| Workspaces.SwitchFocusesOne | hypr/workspaces.js:115-124 | unfocusing then focusing is focusing: the line is lit and urgency cleared |
| Workspaces.UrgencyLastsUntilFocused | hypr/workspaces.js:115-144 | an urgent cell stays lit when unfocused and loses urgency only when focused |
| Workspaces.ShowHideAlternate | hypr/workspaces.js:204-223 | slide-in and slide-out animations strictly alternate |
| Workspaces.ShowIsIdempotent | hypr/workspaces.js:204-216 | showing twice slides in at most once; only an unlocked show arms the timer |
| Workspaces.KeysAgreeOnlyForNumericNames | hypr/workspaces.js:307-334 | name keys and id keys meet only when the name is the id's text |
| Workspaces.FocusedMonPayload | hypr/workspaces.js:248 | the workspace is the second field of "monitor,workspace" |
| Datetime.DayCountAt | bar/module/datetime.js:181-195 | the day count at a cell is -1 before the first day and at least 1 after it |
| Datetime.CellFor | bar/module/datetime.js:197-225 | a cell has a text iff its count is a day of the month, and then the text is that day |
| Datetime.WeekCells | bar/module/datetime.js:189-252 | a week row has seven cells, cell d being grid cell 7w + d |
| Datetime.Weeks | bar/module/datetime.js:254-280 | n weeks give n rows, or 2n when week labels are on |
| Datetime.WeekLoopBound | bar/module/datetime.js:187 | week w is laid iff its first count has not passed the month's end |
| Datetime.LayWeek | bar/module/datetime.js:189-252 | the inner loop lays exactly week w's cells and leaves the count of its last cell |
| Datetime.BuildCalendar | bar/module/datetime.js:134-297 | the loop builds the specified grid with one animated cell per laid cell |
| Datetime.GridLayout | bar/module/datetime.js:148-283 | the legend row, then each week's cells, each followed by "Wk " + (isoWeekNumber + w) when labels are on |
| Datetime.WeekRowsCoverMonth | bar/module/datetime.js:187 | the rows cover every day, the last cell is always blank, and a whole blank week follows a month ending in column 6 |
| Datetime.CellText | bar/module/datetime.js:181-225 | cell i shows day i - firstDayNumber + 1 when that is a day of the month, and '' otherwise |
| Datetime.EachDayOnceInOrder | bar/module/datetime.js:187-252 | each day appears in exactly one cell, and days increase along the grid |
| Datetime.CellColours | bar/module/datetime.js:197-212 | blank cells are empty-coloured, today's cell takes the today colours, the other days the normal colours |
| Datetime.TodayIsUnique | bar/module/datetime.js:203-207 | exactly one cell has today's text colour |
| Datetime.Calendar.constructor | bar/module/datetime.js:15-121 | the calendar starts hidden with a grid built for today under `calendarId`, its window accepting pointer events |
| Datetime.Calendar.CheckCalendar | bar/module/datetime.js:124-132 | the state becomes the check function of the old; the element operations are detach `calendarId`, destroy and attach `calandarId` |
| Datetime.Calendar.PreWarm | bar/module/datetime.js:314-318 | rendering is turned on, then the calendar is checked |
| Datetime.Calendar.Show | bar/module/datetime.js:320-330 | visible, pointer on, callback stored, clock running, every cell animated |
| Datetime.Calendar.Hide | bar/module/datetime.js:332-339 | hidden, pointer off, clock stopped, and the last stored callback is called |
| Datetime.DateTime.constructor | bar/module/datetime.js:344-349 | no calendar opening is pending |
| Datetime.DateTime.OnMouseEnter | bar/module/datetime.js:361-363 | the focus animation runs only while the calendar is closed |
| Datetime.DateTime.OnMouseExit | bar/module/datetime.js:364-366 | the blur animation runs only while the calendar is closed |
| Datetime.DateTime.OnMouseClick | bar/module/datetime.js:367-375 | the bar element hides and the calendar is pre-warmed |
| Datetime.DateTime.OnHideAnimationEnd | bar/module/datetime.js:370-374 | the calendar opens with the callback that shows the bar element again |
| Datetime.CheckIsOncePerDay | bar/module/datetime.js:124-144 | a check rebuilds iff the day of the month differs; a second check on the same day changes nothing |
| Datetime.RebuildTargets | bar/module/datetime.js:128-131 | every rebuild detaches the constructor's grid and destroys the previous rebuild's (undefined on the first) |
| TopBar.TwoDigits | top-bar.js:98-99 | at least two digits, exactly two below 100, and the plain decimal text from 10 on |
| TopBar.FormatTimeHHMM | top-bar.js:96-101 | only digits and ':'; five characters with ':' in the middle for fields below 100 |
| TopBar.OrdinalSuffix | top-bar.js:120-130 | one of "st", "nd", "rd", "th"; "th" from 11 to 13 and for last digits 0 and 4 to 9 |
| TopBar.FormatDateHuman | top-bar.js:132-144 | starts with the weekday name and a space, ends with a space and the month name |
| TopBar.WindowTitle | top-bar.js:208-211 | undefined iff the payload has no comma; a title never holds a comma |
| TopBar.TitleOfPayload | top-bar.js:208-211 | the title of "class,rest" is rest's first comma field |
| TopBar.TitleOfLongPayload | top-bar.js:208-211 | a title followed by more commas is cut at the first of them |
| TopBar.ClockReadsBack | top-bar.js:96-101 | for hours and minutes below 100 the clock is five characters, HH:MM, whose fields read back as them |
| TopBar.TwoDigitsReadBack | top-bar.js:98-99 | a number below 100 pads to two digits that read back as it |
| TopBar.ClockIsInjective | top-bar.js:96-101 | different times of day show different clock texts |
| TopBar.OrdinalSuffixOfMonthDays | top-bar.js:120-130 | "st" exactly on 1, 21, 31; "nd" on 2, 22; "rd" on 3, 23; "th" otherwise, 11 to 13 included |
| TopBar.SplitThreeWords | top-bar.js:143 | three space-free words joined by spaces split back into them |
| TopBar.WeekdayNameReadsBack | top-bar.js:134 | each weekday name reads back to its index |
| TopBar.MonthNameReadsBack | top-bar.js:135-136 | each month name reads back to its index |
| TopBar.DayWordReadsBack | top-bar.js:138-143 | the day with its suffix reads back as the day |
| TopBar.DateFields | top-bar.js:132-144 | the date splits into weekday, day with suffix and month |
| TopBar.DateIsInjective | top-bar.js:132-144 | the date text determines weekday, day of the month and month |
| TopBar.TitleIsCutAtComma | top-bar.js:208-211 | the title is the second field, cut at its first comma |
| TopBar.TitleNeedsComma | top-bar.js:208-211 | a payload without a comma leaves the title undefined |
| Wallpapers.GetExtension | bar/wallpaper.js:7-15 | the extension has no dot and is empty when the name has none |
| Wallpapers.IsVideo | bar/wallpaper.js:111-124 | a video path has a dot and an extension of three or four characters |
| Wallpapers.AssetKey | bar/wallpaper.js:111-135 | the key is never shorter than the path |
| Wallpapers.ChangeOutcome | bar/wallpaper.js:108-137 | an unknown display throws, an empty path returns early, otherwise the change uses a non-empty asset key |
| Wallpapers.Reached | bar/wallpaper.js:101-104 | how many displays the fan-out handles before the first unknown one |
| Wallpapers.Wallpaper.constructor | bar/wallpaper.js:19-94 | one background per display, with active '' and both canvases hidden; no video loaded |
| Wallpapers.Wallpaper.ChangeOn | bar/wallpaper.js:107-152 | the state becomes the change function of the old; videos are handed to the loader |
| Wallpapers.Wallpaper.ChangeEverywhere | bar/wallpaper.js:99-106 | throws iff some listed display is unknown; the state becomes the fan-out of the old |
| Wallpapers.Wallpaper.ChangeTo | bar/wallpaper.js:96-152 | '*' fans out over the displays; any other name changes that display |
| Wallpapers.Wallpaper.FadeEnd | bar/wallpaper.js:139-148 | the end of the fade installs the key on canvas A and as `current` |
| Wallpapers.ReachedIsFirstMissing | bar/wallpaper.js:101-104 | before the reach point a display is known iff it lies before that point |
| Wallpapers.ExtensionOfDottedName | bar/wallpaper.js:7-15 | the extension is the text after the last dot |
| Wallpapers.ExtensionOfSuffix | bar/wallpaper.js:9 | only the part after the last dot matters |
| Wallpapers.VideoByExtension | bar/wallpaper.js:111-122 | a path is a video iff its lower-cased extension is one of the nine; case is ignored |
| Wallpapers.VideoTestIgnoresCase | bar/wallpaper.js:111 | "clip.MP4" is a video |
| Wallpapers.OnlyEmptyPathHasNoKey | bar/wallpaper.js:133-137 | only the empty path has a falsy key |
| Wallpapers.VideoKeyIsVideo | bar/wallpaper.js:123 | a video's key still ends in a video extension |
| Wallpapers.AssetKeysAreDistinct | bar/wallpaper.js:111-135 | different paths give different keys |
| Wallpapers.FadeInstallsLatestKey | bar/wallpaper.js:139-151 | canvas B changes at once, `current` and canvas A only at the fade's end, and the latest change wins |
| Wallpapers.LoadsFor | bar/wallpaper.js:125 | one load per display, with the key and the path |
| Wallpapers.ReachedDependsOnKeys | bar/wallpaper.js:101-104 | the reach point depends only on which displays are known |
| Wallpapers.FanOutStep | bar/wallpaper.js:101-104 | one change keeps the displays and advances the reach by one |
| Wallpapers.FanOutKeepsDisplays | bar/wallpaper.js:101-104 | the fan-out keeps the set of displays |
| Wallpapers.FanOutBackgrounds | bar/wallpaper.js:101-104 | a reached display fades to the key of a non-empty path; every other display is unchanged |
| Wallpapers.ChangedOnLoads | bar/wallpaper.js:123-125 | one change loads one video, and only for a video path on a known display |
| Wallpapers.FanOutLoads | bar/wallpaper.js:101-104 | the fan-out loads a video once per reached display, in order, and nothing for images |
| Wallpapers.SameKeyEverywhere | bar/wallpaper.js:101-104 | every known display gets the same outcome and key |

## Left out

- D-Bus plumbing: every `DBus.call`/`callComplex`/`addMatch`/`onSignal` and the `Promise.all` fan-outs. Replies are inputs (None when the call threw), and the calls issued are not recorded except `activateProfile`'s `Set`.
- `ensureConnected` (lib/NetworkManager.js and bar/module/power.js): its single-flight behaviour only matters for interleaved asynchronous callers, and the model is sequential.
- `JSON.parse`, `TextDecoder` (UTF-8 and Latin-1), `parseInt` and `parseFloat` are parameters of the members that use them; their own behaviour is not modelled.
- Non-integral JavaScript numbers in property bags: `Value` numbers are integers (D-Bus integer properties). The battery percentage is the exception: it is an optional real after `parseFloat`, with None for a non-finite reading.
- The DNS summary of `getOverview` (lib/NetworkManager.js:444-459): it has no consumer in the modelled widgets.
- The settings dictionaries of `createConnection`, `connectionAdd` and `wifiHotspot`, and the other exported NetworkManager wrappers: these build literal payloads for D-Bus calls. `toUtf8Bytes` is modelled once; its copy at lib/NetworkManager.js:1090 is identical.
- `getModem`: the managed-object table is given as a sequence of entries in `Object.keys` order.
- Devices.Priority: an `autoconnect-priority` that is not a number reads as 0. JavaScript subtracts it as it is: a numeric string or a boolean counts as its numeric value (`"5" - "3"` is 2), and anything else gives NaN, which leaves the sort order unspecified. The model differs from JavaScript on all of these values.
- UTF-16 text in the encoder is a sequence of code units (integers 0..0xFFFF), since a Dafny `char` cannot hold a lone surrogate.
- Dates: dayjs and `Date` are replaced by the values they report (weekday, day, month, hours, minutes; first weekday, days in month, ISO week). dayjs format strings for the long and short time and date texts are not modelled.
- Compositor and UI calls: windows, layouts, textures, animation keyframes and their floating-point timings. Only enabled, attached, text, colour, texture and started-animation effects are kept where a property needs them.
- Timers: `setInterval` clocks are a running flag; the 2000 ms auto-hide of a display window is a pending-hide flag with an explicit timer-fires method; the 100 ms rendering shutdown after the calendar hides is not modelled.
- `ff.load` (ffmpeg): the model records each load request (display, key, path) and nothing of its effect.
- The fade end starts `animB.hide`, which the constructor never defines; the model records that canvas B's animation is undefined and nothing more.
- `UI.onAnimationEnd` callbacks: one pending end-of-fade per display and one pending calendar opening, the latest registration winning.
- `bar/index.js` and `index.js`: they assemble the UI tree. The `formatTimeHHMM` in `index.js` is identical to the one in `top-bar.js`.
- Wallpapers.Wallpaper.ChangeTo: a display list holding a display literally named '*' is excluded by a precondition. In the source, `changeTo` on that name starts the wildcard loop again, which changes the earlier displays once more at every level, until the stack overflows and a RangeError is thrown. How many times the earlier displays change depends on the stack depth, so the model does not state it.
- Wallpapers.Wallpaper.ChangeEverywhere: carries the same precondition as ChangeTo, that no listed display is named '*', for the same reason.
- Wallpapers.AssetKey: the video key's middle segment is `display.display` of a string key, which is always the text "undefined"; the model writes that text.
- Wallpapers.VideoByExtension: lower-casing is ASCII only.
- Workspaces.HyprWorkspaces: the registry holds cells and windows as values rather than object references, so destroying a cell that `buildWorkspaces` replaces leaves no trace in it.
- The `createworkspace`, `destroyworkspace` and `workspace` subscriptions of hypr/workspaces.js are not modelled apart from the create, remove and switch methods they call. The urgent handler throws when no client matches; the model does nothing in that case.
- NetworkWidget.Network.Init: the `forEach` that calls every entry's `update` right after `init` is not part of the method; each entry's update is the separate Update method.
- The network widget's modem lookups in `init` are not modelled: their results are never used.
