/**
 * The six tier blocks of manifest_gen.py, each written out as its list of
 * lines (block two opens with a newline, so its first line is empty), and
 * costs, the list of the six lists.
 */
module TierLists {
  const OneLines: seq<string> := [
    "Splat Bomb",
    "Suction Bomb",
    "Burst Bomb",
    "Sprinkler",
    "Fizzy Bomb",
    "Smallfry",
    "Tentatek",
    "Octopod"
  ]

  const TwoLines: seq<string> := [
    "",
    "Splattershot Jr.",
    "N-ZAP '85",
    "Tri-Slosher",
    "Splatana Wiper",
    "Splash Wall",
    "Curling Bomb",
    "Point Sensor",
    "Ink Mine",
    "Toxic Mist",
    "Angle Shooter",
    "Torpedo",
    "Octocopter",
    "Octomissile",
    "Octostamp",
    "Chum",
    "Custom Splattershot Jr.",
    "N-ZAP '89",
    "Tri-Slosher Nouveau"
  ]

  const ThreeLines: seq<string> := [
    "Splash-o-matic",
    "Aerospray MG",
    "Splattershot",
    ".52 Gal",
    "Luna Blaster",
    "Blaster",
    "Clash Blaster",
    "Rapid Blaster",
    "L-3 Nozzlenose",
    "H-3 Nozzlenose",
    "Squeezer",
    "Carbon Roller",
    "Inkbrush",
    "Classic Squiffer",
    "Splat Charger",
    "Bamboozler 14 Mk I",
    "Slosher",
    "Sloshing Machine",
    "Mini Splatling",
    "Dapple Dualies",
    "Splat Dualies",
    "Dark Tetra Dualies",
    "Undercover Brella",
    "Splatana Stamper",
    "Autobomb",
    "Li'l Judd",
    "Toni Kensa",
    "Octotrooper",
    "Tentakook",
    "Squee-G",
    "Snatcher",
    "Stinger",
    "Slammin' Lid",
    "Aerospray RG",
    "Tentatek Splattershot",
    "Luna Blaster Neo",
    "Carbon Roller Deco",
    "Inkbrush Nouveau",
    "Slosher Deco",
    "Zink Mini Splatling",
    "Dapple Dualies Nouveau",
    "Neo Splash-o-matic",
    "Clash Blaster Neo",
    "Rapid Blaster Deco",
    "L-3 Nozzlenose D",
    "Z+F Splat Charger",
    "Trizooka",
    "Big Bubbler",
    "Zipcaster",
    "Tenta Missiles",
    "Ink Storm",
    "Booyah Bomb",
    "Wave Breaker",
    "Ink Vac",
    "Killer Wail 5.1",
    "Inkjet",
    "Ultra Stamp",
    "Crab Tank",
    "Reefslider",
    "Triple Inkstrike",
    "Tacticooler",
    "Kraken Royale",
    "Super Chump"
  ]

  const FourLines: seq<string> := [
    "Sploosh-o-matic",
    "Splattershot Pro",
    ".96 Gal",
    "Jet Squelcher",
    "Range Blaster",
    "Rapid Blaster Pro",
    "Splat Roller",
    "Flingza Roller",
    "Octobrush",
    "Splatterscope",
    "E-liter 4K",
    "Goo Tuber",
    "Bloblobber",
    "Explosher",
    "Ballpoint Splatling",
    "Nautilus 47",
    "Glooga Dualies",
    "Dualie Squelchers",
    "Splat Brella",
    "Tri-Stringer",
    "REEF-LUX 450",
    "Squid Beakon",
    "SquidForce",
    "Rockenberg",
    "Forge",
    "Firefin",
    "Splash Mob",
    "Inkline",
    "Barazushi",
    "Emberz",
    "Shielded Octotrooper",
    "Twintacle Octotrooper",
    "Octohopper",
    "Oversized Octopod",
    "Octosniper",
    "Octozeppelin",
    "Amped Octostamp",
    "Octoling",
    "Cohock",
    "Steel Eel",
    "Scrapper",
    "Fish Stick",
    "Zapfish",
    "Power Clam",
    "Forge Splattershot Pro",
    "Splattershot Nova",
    "Big Swig Roller",
    "Snipewriter 5H",
    "Neo Sploosh-o-matic",
    ".96 Gal Deco",
    "Custom Jet Squelcher",
    "Krak-On Splat Roller",
    "Z+F Splatterscope",
    "Fred Crumbs",
    "Z+F"
  ]

  const FiveLines: seq<string> := [
    "Hero Shot",
    "Dynamo Roller",
    "E-liter 4K Scope",
    "Heavy Splatling",
    "Hydra Splatling",
    "Tenta Brella",
    "Sheldon",
    "Gnarly Eddy",
    "Jel La Fleur",
    "Mr. Coco",
    "Harmony",
    "Murch",
    "Mr. Grizz",
    "Marigold",
    "Cuttlefish",
    "Callie",
    "Marie",
    "Judd",
    "Zink",
    "Krak-On",
    "Zekko",
    "Skalop",
    "Takoroka",
    "Annaki",
    "Enperry",
    "Octobomber",
    "Octodisco",
    "Octocommander",
    "Flooder",
    "Octoballer",
    "Steelhead",
    "Maws",
    "Drizzler",
    "Flyfish",
    "Flipper-Flopper",
    "Big Shot",
    "Goldie",
    "Griller",
    "Mothership",
    "Mudmouth",
    "Tower Control",
    "Rainmaker",
    "Shelly & Donny",
    "Annie",
    "Jelonzo",
    "Spyke",
    "The Eel Deal - Frye",
    "The Cold-Blooded Bandit - Shiver",
    "The Hype Manta Storm - Big Man"
  ]

  const SixLines: seq<string> := [
    "Captain",
    "Shiver",
    "Frye",
    "Big Man",
    "DJ Octavio"
  ]

  /** costs: the six tier lists, one per block. */
  const Costs: seq<seq<string>> := [OneLines, TwoLines, ThreeLines, FourLines, FiveLines, SixLines]
}
