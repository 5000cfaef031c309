/** The device catalogue and the passive hints that map observations to device types. */
module DeviceTables {
  import opened Text

  datatype Catalogue = Catalogue(base: set<string>, extended: set<string>, storage: set<string>)

  const UNKNOWN := "unknown"

  /** Accepts the types that have an icon and make sense for a network neighbour. */
  predicate IsNetworkType(cat: Catalogue, deviceType: string) {
    var t := Lower(TrimSpace(deviceType));
    if t == "" || t == UNKNOWN || t == "storage" then false
    else t in cat.base || (t in cat.extended && (t !in cat.storage || t == "nas" || t == "san"))
  }

  // ---------------------------------------------------------------- hostnames

  datatype Pattern = Pattern(deviceType: string, words: seq<string>)

  const HOSTNAME_PATTERNS: seq<Pattern> := [
    Pattern("reverse_proxy", ["reverse-proxy", "reverseproxy"]),
    Pattern("smart_tv", ["hisense", "bravia", "webos", "smarttv"]),
    Pattern("tv", ["tv", "television"]),
    Pattern("phone", ["phone", "iphone", "android", "xiaomi", "pixel", "galaxy", "mobile"]),
    Pattern("printer", ["printer", "brother", "laserjet", "deskjet", "officejet"]),
    Pattern("nas", ["nas", "synology", "qnap"]),
    Pattern("accesspoint", ["access-point", "accesspoint", "unifi", "airport"]),
    Pattern("router", ["router", "gateway", "firewall"]),
    Pattern("camera", ["camera", "webcam", "doorbell", "cam-"]),
    Pattern("laptop", ["laptop", "notebook", "macbook"]),
    Pattern("desktop", ["workstation", "desktop", "windows-pc", "computer", "trinity-install"]),
    Pattern("server", ["server", "hypervisor", "proxmox", "truenas"])
  ]

  predicate IsDot(c: char) {
    c == '.'
  }

  function Dash(c: char): char {
    if c == '_' || c == ' ' then '-' else c
  }

  function HostnameName(hostname: string): string {
    MapChars(Lower(TrimBy(TrimSpace(hostname), IsDot)), Dash)
  }

  predicate IsHostSeparator(c: char) {
    c == '-' || c == '.' || c == ':' || c == '/'
  }

  predicate OccursAt(s: string, t: string, i: nat) {
    i + |t| <= |s| && s[i..i + |t|] == t
  }

  predicate Contains(s: string, t: string) {
    exists i :: 0 <= i <= |s| && OccursAt(s, t, i)
  }

  predicate HostnameContains(name: string, token: string) {
    if token == "cam-" then token <= name
    else token in Fields(name, IsHostSeparator) || (Contains(name, token) && |token| >= 5)
  }

  predicate Matches(p: Pattern, name: string) {
    exists w :: w in p.words && HostnameContains(name, w)
  }

  /** The type of the first pattern with a matching word. */
  function FirstMatch(patterns: seq<Pattern>, name: string): (t: string)
    ensures t == UNKNOWN || exists i :: 0 <= i < |patterns| && patterns[i].deviceType == t
  {
    if patterns == [] then UNKNOWN
    else if Matches(patterns[0], name) then patterns[0].deviceType
    else
      var t := FirstMatch(patterns[1..], name);
      assert forall i :: 0 <= i < |patterns| - 1 ==> patterns[1..][i] == patterns[i + 1];
      t
  }

  function HostnameType(patterns: seq<Pattern>, hostname: string): (t: string)
    ensures t == UNKNOWN || exists i :: 0 <= i < |patterns| && patterns[i].deviceType == t
  {
    FirstMatch(patterns, HostnameName(hostname))
  }

  /** The first pattern that matches, in the order of the list, decides. */
  lemma {:induction false} FirstPatternWins(patterns: seq<Pattern>, name: string, i: nat)
    requires i < |patterns| && Matches(patterns[i], name)
    requires forall j :: 0 <= j < i ==> !Matches(patterns[j], name)
    ensures FirstMatch(patterns, name) == patterns[i].deviceType
  {
    if i > 0 {
      assert !Matches(patterns[0], name);
      FirstPatternWins(patterns[1..], name, i - 1);
    }
  }

  lemma {:induction false} NoPatternMatches(patterns: seq<Pattern>, name: string)
    requires forall i :: 0 <= i < |patterns| ==> !Matches(patterns[i], name)
    ensures FirstMatch(patterns, name) == UNKNOWN
  {
    if patterns != [] {
      assert !Matches(patterns[0], name);
      NoPatternMatches(patterns[1..], name);
    }
  }

  /** Every type a hostname can suggest is a network type of the catalogue.  The classifier
      relies on it: a hostname may override the vote without having taken part in it. */
  ghost predicate Covers(cat: Catalogue, patterns: seq<Pattern>) {
    forall i :: 0 <= i < |patterns| ==> IsNetworkType(cat, patterns[i].deviceType)
  }

  // ---------------------------------------------------------------- services, interfaces

  const SERVICE_HINTS: map<string, string> := map[
    "ipp" := "printer", "ipps" := "printer", "printer" := "printer", "jetdirect" := "printer", "9100" := "printer",
    "rtsp" := "camera", "onvif" := "camera", "554" := "camera",
    "smb" := "nas", "afp" := "nas", "nfs" := "nas", "445" := "nas",
    "airplay" := "smart_speaker", "raop" := "smart_speaker", "sonos" := "smart_speaker",
    "hue" := "smart_bulb", "zigbee" := "smart_bulb",
    "mqtt" := "iot", "coap" := "iot",
    "ssh" := "server", "rdp" := "desktop",
    "googlecast" := "streaming_player", "chromecast" := "streaming_player"
  ]

  function ServiceType(hints: map<string, string>, service: string): string {
    var name := Lower(TrimSpace(service));
    if name in hints then hints[name] else ""
  }

  predicate IsVirtualInterface(iface: string) {
    var name := Lower(TrimSpace(iface));
    "vif" <= name || "tap" <= name || "vnet" <= name
  }

  // ---------------------------------------------------------------- hardware addresses

  const VIRTUAL_OUIS: map<string, string> := map[
    "00:16:3e" := "Xen", "00:05:69" := "VMware", "00:0c:29" := "VMware", "00:1c:14" := "VMware",
    "00:50:56" := "VMware", "08:00:27" := "VirtualBox", "52:54:00" := "QEMU/KVM",
    "00:15:5d" := "Microsoft Hyper-V", "00:1c:42" := "Parallels"
  ]

  function Colon(c: char): char {
    if c == '-' then ':' else c
  }

  function NormalizeMac(mac: string): string {
    Lower(MapChars(TrimSpace(mac), Colon))
  }

  predicate IsHex(c: char) {
    '0' <= c <= '9' || 'a' <= c <= 'f'
  }

  predicate IsHexPair(group: string) {
    |group| == 2 && forall c :: c in group ==> IsHex(c)
  }

  function HexValue(c: char): nat {
    if '0' <= c <= '9' then c as int - '0' as int
    else if 'a' <= c <= 'f' then c as int - 'a' as int + 10
    else 0
  }

  /** The first three bytes of a well-formed address, or "". */
  function OuiPrefix(mac: string): (p: string)
    ensures p == "" || |p| == 8
  {
    var groups := Split(NormalizeMac(mac), ':');
    if |groups| == 6 && forall i :: 0 <= i < 6 ==> IsHexPair(groups[i]) then
      groups[0] + ":" + groups[1] + ":" + groups[2]
    else ""
  }

  /** Six pairs of hexadecimal digits between colons. */
  predicate IsHexAddress(m: string) {
    |m| == 17 && forall i :: 0 <= i < 17 ==> if i % 3 == 2 then m[i] == ':' else IsHex(m[i])
  }

  function Six(a: string, b: string, c: string, d: string, e: string, f: string): string {
    a + [':'] + (b + [':'] + (c + [':'] + (d + [':'] + (e + [':'] + f))))
  }

  lemma JoinSix(a: string, b: string, c: string, d: string, e: string, f: string)
    ensures Join([a, b, c, d, e, f], ':') == Six(a, b, c, d, e, f)
  {
    assert [a, b, c, d, e, f][1..] == [b, c, d, e, f];
    assert [b, c, d, e, f][1..] == [c, d, e, f];
    assert [c, d, e, f][1..] == [d, e, f];
    assert [d, e, f][1..] == [e, f];
    assert [e, f][1..] == [f];
    assert Join([f], ':') == f && Join([e, f], ':') == e + [':'] + f;
    assert Join([d, e, f], ':') == d + [':'] + (e + [':'] + f);
    assert Join([b, c, d, e, f], ':') == b + [':'] + (c + [':'] + Join([d, e, f], ':'));
  }

  lemma HexSix(a: string, b: string, c: string, d: string, e: string, f: string)
    requires IsHexPair(a) && IsHexPair(b) && IsHexPair(c) && IsHexPair(d) && IsHexPair(e) && IsHexPair(f)
    ensures var m := Six(a, b, c, d, e, f);
            IsHexAddress(m) && m[..8] == a + ":" + b + ":" + c
  {
    var m := Six(a, b, c, d, e, f);
    assert |m| == 17;
    assert m[0] == a[0] && m[1] == a[1] && m[2] == ':' && m[3] == b[0] && m[4] == b[1] && m[5] == ':';
    assert m[6] == c[0] && m[7] == c[1] && m[8] == ':' && m[9] == d[0] && m[10] == d[1] && m[11] == ':';
    assert m[12] == e[0] && m[13] == e[1] && m[14] == ':' && m[15] == f[0] && m[16] == f[1];
  }

  /** An address has a vendor prefix exactly when its normal form is six hexadecimal pairs
      between colons, and the prefix is the first three of them. */
  lemma OuiPrefixIff(mac: string)
    ensures var m := NormalizeMac(mac);
            if IsHexAddress(m) then OuiPrefix(mac) == m[..8] else OuiPrefix(mac) == ""
  {
    var m := NormalizeMac(mac);
    var groups := Split(m, ':');
    if |groups| == 6 && forall i :: 0 <= i < 6 ==> IsHexPair(groups[i]) {
      JoinSplit(m, ':');
      assert groups == [groups[0], groups[1], groups[2], groups[3], groups[4], groups[5]];
      JoinSix(groups[0], groups[1], groups[2], groups[3], groups[4], groups[5]);
      HexSix(groups[0], groups[1], groups[2], groups[3], groups[4], groups[5]);
    } else if IsHexAddress(m) {
      SplitHexAddress(m);
      assert false;
    }
  }

  lemma SplitHexAddress(m: string)
    requires IsHexAddress(m)
    ensures |Split(m, ':')| == 6 && forall i :: 0 <= i < 6 ==> IsHexPair(Split(m, ':')[i])
  {
    var groups := [m[0..2], m[3..5], m[6..8], m[9..11], m[12..14], m[15..17]];
    forall i | 0 <= i < 6
      ensures IsHexPair(groups[i]) && ':' !in groups[i]
    {
      assert groups[i] == [m[3 * i], m[3 * i + 1]];
      assert (3 * i) % 3 == 0 && (3 * i + 1) % 3 == 1;
    }
    JoinSix(groups[0], groups[1], groups[2], groups[3], groups[4], groups[5]);
    assert m == Six(groups[0], groups[1], groups[2], groups[3], groups[4], groups[5]) by {
      assert m[2] == ':' && m[5] == ':' && m[8] == ':' && m[11] == ':' && m[14] == ':';
    }
    SplitJoin(groups, ':');
  }

  // ---------------------------------------------------------------- the shipped catalogue

  const SHIPPED := Catalogue(BASE_TYPES, EXTENDED_TYPES, STORAGE_TYPES)

  /** A type name that normalisation leaves alone. */
  predicate Normal(t: string) {
    t != "" && forall i :: 0 <= i < |t| ==> LowerChar(t[i]) == t[i] && !IsSpace(t[i])
  }

  lemma NormalStays(t: string)
    requires Normal(t)
    ensures Lower(TrimSpace(t)) == t
  {
    assert TrimLeftBy(t, IsSpace) == t && TrimRightBy(t, IsSpace) == t;
  }

  lemma ExtendedHostnameTypes()
    ensures "reverse_proxy" in EXTENDED_TYPES && "smart_tv" in EXTENDED_TYPES
  {
  }

  /** No storage type has the length and the letter of "reverse_proxy" or "smart_tv". */
  lemma NotStorage(t: string)
    requires (|t| == 13 && t[0] == 'r') || (|t| == 8 && t[1] == 'm')
    ensures t !in STORAGE_TYPES
  {
    NotStorage1(t);
    NotStorage2(t);
    NotStorage3(t);
    NotStorage4(t);
  }

  lemma NotStorage1(t: string)
    requires (|t| == 13 && t[0] == 'r') || (|t| == 8 && t[1] == 'm')
    ensures t !in STORAGE_1
  {
  }

  lemma NotStorage2(t: string)
    requires (|t| == 13 && t[0] == 'r') || (|t| == 8 && t[1] == 'm')
    ensures t !in STORAGE_2
  {
  }

  lemma NotStorage3(t: string)
    requires (|t| == 13 && t[0] == 'r') || (|t| == 8 && t[1] == 'm')
    ensures t !in STORAGE_3
  {
  }

  lemma NotStorage4(t: string)
    requires (|t| == 13 && t[0] == 'r') || (|t| == 8 && t[1] == 'm')
    ensures t !in STORAGE_4
  {
  }

  lemma HostnameTypesKnown(i: nat)
    requires i < |HOSTNAME_PATTERNS|
    ensures var t := HOSTNAME_PATTERNS[i].deviceType;
            && Normal(t)
            && (t == "reverse_proxy" || t == "smart_tv" || (t in BASE_TYPES && t != UNKNOWN && t != "storage"))
  {
  }

  lemma ExtendedShape(t: string)
    requires t == "reverse_proxy" || t == "smart_tv"
    ensures (|t| == 13 && t[0] == 'r') || (|t| == 8 && t[1] == 'm')
    ensures t != "" && t != UNKNOWN && t != "storage"
  {
  }

  lemma NetworkTypeWhen(cat: Catalogue, t: string)
    requires Normal(t) && t != UNKNOWN && t != "storage"
    requires t in cat.base || (t in cat.extended && t !in cat.storage)
    ensures IsNetworkType(cat, t)
  {
    NormalStays(t);
  }

  lemma HostnameTypeIsNetworkType(i: nat)
    requires i < |HOSTNAME_PATTERNS|
    ensures IsNetworkType(SHIPPED, HOSTNAME_PATTERNS[i].deviceType)
  {
    var t := HOSTNAME_PATTERNS[i].deviceType;
    HostnameTypesKnown(i);
    if t !in BASE_TYPES {
      ExtendedShape(t);
      ExtendedHostnameTypes();
      NotStorage(t);
    }
    NetworkTypeWhen(SHIPPED, t);
  }

  /** The shipped catalogue accepts every type a hostname can suggest. */
  lemma ShippedCovers()
    ensures Covers(SHIPPED, HOSTNAME_PATTERNS)
  {
    forall i | 0 <= i < |HOSTNAME_PATTERNS|
      ensures IsNetworkType(SHIPPED, HOSTNAME_PATTERNS[i].deviceType)
    {
      HostnameTypeIsNetworkType(i);
    }
  }

  const BASE_TYPES := {
    "desktop", "laptop", "server", "nas", "storage", "printer", "phone", "tablet", "router",
    "switch", "accesspoint", "camera", "tv", "iot", "unknown"
  }

  const EXTENDED_TYPES := {
    "3d_printer", "4g_5g_modem", "access_point", "air_quality_co2", "aircraft_transponder", "airplane",
    "alarm_clock", "alarm_control_panel", "alarm_siren", "arduino_board", "autonomous_robot_vehicle",
    "backup", "battery", "bicycle_ebike", "ble", "bluray", "boat", "breadboard", "bridge", "bus",
    "camera_module", "can_bus", "car", "cd_dvd", "cfexpress", "cloud", "cloud_storage", "cluster",
    "das_enclosure", "dashcam", "database", "door_contact", "drone_controller", "edsff_e1s", "edsff_e3s",
    "emmc_chip", "encryption_storage", "esp32_board", "ev_charger", "ev_vehicle", "fibre_channel_fabric",
    "fibre_link", "firewall", "fixed_wing_drone", "fleet_tracking", "floppy", "garden_irrigation",
    "gateway", "gps_module", "gps_tracker", "gpu_card", "gpu_server", "hdd_25", "hdd_35", "hdd_enterprise",
    "helicopter", "hot_swap_bay", "hub_domotique", "humidity", "hypervisor", "imu_accelerometer",
    "iot_sensor_module", "ip_camera", "iscsi", "jbod_array", "jet_ski", "light_strip", "load_balancer",
    "lorawan", "lto_tape", "m2_nvme", "m2_sata", "marine_ais", "microbit", "microcontroller", "microsd",
    "motion_pir", "motorcycle", "msata", "nas", "network_nas", "nfc_rfid", "nfs_share", "nic_ethernet",
    "nic_fibre_sfp", "nvme_protocol", "obd2_diagnostic", "object_storage", "oled_display", "partition",
    "pcie_slot", "pcie_ssd", "quadcopter", "rack", "radar_lidar", "raid_array", "raid_controller",
    "ram_disk", "raspberry_pi", "relay_module", "replication", "reverse_proxy", "robot", "rom_flash_chip",
    "router_wan", "rtc_module", "sailboat", "san", "sas_backplane", "sas_connector", "sas_hba",
    "sata_connector", "satellite", "scooter", "sd_card", "security_shield", "server_1u", "server_2u",
    "servo_motor", "sfp_fibre_channel", "sfp_module", "smart_blind", "smart_bulb", "smart_doorbell",
    "smart_garage", "smart_helmet", "smart_home", "smart_lock", "smart_meter", "smart_plug",
    "smart_speaker", "smart_switch", "smart_tv", "smart_valve", "smb_share", "smoke_detector", "snapshot",
    "solar_panel", "ssd_nvme_25", "ssd_sata_25", "stepper_motor", "stm32_board", "storage_array",
    "storage_gateway", "storage_monitor", "storage_pool", "storage_rack", "switch_16_ports",
    "switch_24_ports", "switch_48_ports", "switch_8_ports", "tape_library", "telemetry_module",
    "temperature", "terminal", "thermostat", "thermostatic_valve", "thread", "thunderbolt",
    "tire_pressure_tpms", "train", "truck", "u2_ssd", "u3_ssd", "ufs_chip", "usb_c_storage",
    "usb_flash_drive", "usb_storage", "vehicle_charging_station", "vehicle_ecu", "vif", "virtual_machine",
    "volume", "vpn_tunnel", "wall_clock", "water_leak", "weather_station", "xfs_filesystem", "zigbee",
    "zwave"
  }

  const STORAGE_TYPES := STORAGE_1 + STORAGE_2 + STORAGE_3 + STORAGE_4

  const STORAGE_1 := {
    "backup", "bluray", "cd_dvd", "cfexpress", "cloud_storage", "das_enclosure", "edsff_e1s", "edsff_e3s",
    "emmc_chip", "encryption_storage", "fibre_channel_fabric", "floppy", "hdd_25", "hdd_35",
    "hdd_enterprise"
  }

  const STORAGE_2 := {
    "hot_swap_bay", "iscsi", "jbod_array", "lto_tape", "m2_nvme", "m2_sata", "microsd", "msata", "nas",
    "nfs_share", "nvme_protocol", "object_storage", "partition", "pcie_slot", "pcie_ssd"
  }

  const STORAGE_3 := {
    "raid_array", "raid_controller", "ram_disk", "replication", "rom_flash_chip", "san", "sas_backplane",
    "sas_connector", "sas_hba", "sata_connector", "sd_card", "sfp_fibre_channel", "smb_share", "snapshot",
    "ssd_nvme_25"
  }

  const STORAGE_4 := {
    "ssd_sata_25", "storage_gateway", "storage_monitor", "storage_pool", "storage_rack", "tape_library",
    "thunderbolt", "u2_ssd", "u3_ssd", "ufs_chip", "usb_c_storage", "usb_flash_drive", "usb_storage",
    "volume", "xfs_filesystem"
  }
}
