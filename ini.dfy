/** The part of Python's ConfigParser that the update script relies on: the
    DEFAULT section, named sections, `config[section][option]` lookups that fall
    back to DEFAULT and raise KeyError, and `config[section][option] = value`. */
module Ini {
  import opened Base

  /** Options of one section; option names are kept as ConfigParser stores them
      (already lower-cased). */
  type Section = map<string, string>

  /** The parsed file: the DEFAULT section kept apart from the named sections. */
  datatype Ini = Ini(defaults: Section, sections: map<string, Section>)

  const DefaultSection := "DEFAULT"

  /** `config[section][option]`: a missing section raises KeyError(section); an
      option missing from the section is looked up in DEFAULT, and if it is missing
      there too KeyError(option) is raised. */
  function Get(ini: Ini, section: string, option: string): (r: Result<string>)
    ensures section != DefaultSection && section !in ini.sections ==> r == Err(KeyError(section))
    ensures r.Err? ==> r.error == KeyError(section) || r.error == KeyError(option)
    ensures r.Err? && (section == DefaultSection || section in ini.sections) ==> r.error == KeyError(option)
    ensures r.Ok? <==>
      if section == DefaultSection then option in ini.defaults
      else section in ini.sections && (option in ini.sections[section] || option in ini.defaults)
    ensures r.Ok? && section != DefaultSection && option in ini.sections[section] ==>
      r.value == ini.sections[section][option]
    ensures r.Ok? && (section == DefaultSection || option !in ini.sections[section]) ==>
      r.value == ini.defaults[option]
  {
    if section == DefaultSection then
      if option in ini.defaults then Ok(ini.defaults[option]) else Err(KeyError(option))
    else if section !in ini.sections then Err(KeyError(section))
    else if option in ini.sections[section] then Ok(ini.sections[section][option])
    else if option in ini.defaults then Ok(ini.defaults[option])
    else Err(KeyError(option))
  }

  /** `config[section][option] = value` on a section that exists. */
  function Set(ini: Ini, section: string, option: string, value: string): (r: Ini)
    requires section != DefaultSection && section in ini.sections
    ensures Get(r, section, option) == Ok(value)
    ensures option in r.sections[section] && r.sections[section][option] == value
    ensures forall s, o {:trigger Get(r, s, o)} :: (s != section || o != option) ==> Get(r, s, o) == Get(ini, s, o)
    ensures r.defaults == ini.defaults && r.sections.Keys == ini.sections.Keys
    ensures forall s :: s in ini.sections && s != section ==> r.sections[s] == ini.sections[s]
    ensures r.sections[section] - {option} == ini.sections[section] - {option}
  {
    Ini(ini.defaults, ini.sections[section := ini.sections[section][option := value]])
  }

  /** The ConfigParser object the script builds and updates in place. */
  class Config {
    var defaults: Section
    var sections: map<string, Section>

    /** The value this object holds, as the file it would be written to. */
    function State(): Ini
      reads this
    {
      Ini(defaults, sections)
    }

    constructor (ini: Ini)
      ensures State() == ini
    {
      defaults := ini.defaults;
      sections := ini.sections;
    }

    /** `config[section][option]` */
    method Lookup(section: string, option: string) returns (r: Result<string>)
      ensures r == Get(State(), section, option)
    {
      r := Get(State(), section, option);
    }

    /** `config[section][option] = value` */
    method Assign(section: string, option: string, value: string)
      requires section != DefaultSection && section in sections
      modifies this
      ensures State() == Set(old(State()), section, option, value)
    {
      sections := sections[section := sections[section][option := value]];
    }
  }
}
