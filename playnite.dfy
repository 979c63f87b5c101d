/** The host application's records that the modelled code reads. Identifiers
    (GUIDs) are kept as their string form. */
module Playnite {

  import opened Wrappers

  /** A library game: its identifier, its name and its install directory
      (both of the latter may be null). */
  datatype Game = Game(id: string, name: Option<string>, installDirectory: Option<string>)

  /** A game menu item offered by a plugin. The action it runs is not
      modelled; `MenuSection` and `Description` may be null. */
  datatype GameMenuItem = GameMenuItem(menuSection: Option<string>, description: Option<string>)

  /** A loaded plugin: its identifier and the name of its runtime type. */
  datatype Plugin = Plugin(id: string, typeName: string)
}
