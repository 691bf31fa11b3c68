// The daemon's configuration object: the settings tree of its file and the Config value.
module Configuration {
  import opened Options
  import opened Settings
  import opened Schema
  import opened Codec
  import opened LogidSchema
  import opened ConfigFile
  import opened SettingStore

  class Configuration {
    var root: Setting
    var config: Value

    ghost predicate Valid()
      reads this, root, root.Repr
    {
      root.Valid() && UniqueNames(root.Content) && WellTyped(Config(), config) &&
      config.G? && |config.fields| == 4
    }

    // Reads the file's tree, an empty group if there is no file. Every member of Config is
    // optional, so this cannot fail; a missing devices map becomes an empty one.
    constructor (root: Setting)
      requires root.Valid() && UniqueNames(root.Content) && IntsFit(root.Content)
      requires Exists(root.Content, "devices") ==> ArrayOfScalars(Lookup(root.Content, "devices").value)
      ensures Valid() && this.root == root && root.Content == old(root.Content)
      ensures Get(Config(), root.Content).Some?
      ensures config == WithDevices(Get(Config(), root.Content).value)
    {
      LoadSaveLoad(root.Content);
      var got := root.Load(Config());
      var fields := got.value.fields;
      if fields[0].None? { fields := fields[0 := Some(M([]))]; }
      this.root, config := root, G(fields);
    }

    // Writes config over the tree it was read from, in place.
    method Save() returns (ok: bool)
      requires Valid()
      modifies root.Repr
      ensures root.Valid() && config == old(config)
      ensures (ok && Get(Config(), root.Content) == Some(config)) <==> SaveIsFaithful(config, old(root.Content))
    {
      SaveThenLoad(config, root.Content);
      ok := root.Save(Config(), config);
    }
  }
}
